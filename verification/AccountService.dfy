/** The handlers of internal/admin as statements over the users and sessions tables. */
module AccountService {
  import opened Text
  import opened Accounts
  import AccountRuns
  import Credentials

  /** The keys of the tables hold, and an active admin remains if there was one. */
  ghost predicate Kept(before: State, after: State) {
    Valid(after) && (AccountRuns.HasActiveAdmin(before) ==> AccountRuns.HasActiveAdmin(after))
  }

  lemma StepKept(w: World, st: State, r: Request)
    requires Valid(st)
    ensures Kept(st, Step(w, st, r).state)
  {
    AccountRuns.StepValid(w, st, r);
    if AccountRuns.HasActiveAdmin(st) { AccountRuns.StepKeepsActiveAdmin(w, st, r); }
  }

  class Service {
    const w: World
    var users: map<string, User>
    var sessions: map<string, Session>

    function Tables(): State
      reads this
    {
      State(users, sessions)
    }

    constructor (w: World)
      ensures this.w == w && Tables() == State(map[], map[])
    {
      this.w := w;
      users, sessions := map[], map[];
    }

    method FindUserByEmail(email: string) returns (r: Option<string>)
      requires UniqueEmails(users)
      ensures r == UserByEmail(users, NormalizeEmail(email))
    {
      var address := NormalizeEmail(email);
      var left := users.Keys;
      while left != {}
        invariant left <= users.Keys
        invariant forall id :: HasEmail(users, id, address) ==> id in left
        decreases |left|
      {
        var id :| id in left;
        if users[id].email == address {
          Credentials.EmailFinds(users, id, address);
          return Some(id);
        }
        left := left - {id};
      }
      return None;
    }

    method FindSession(hash: string) returns (r: Option<string>)
      requires UniqueHashes(sessions)
      ensures r == Holder(sessions, hash)
    {
      var left := sessions.Keys;
      while left != {}
        invariant left <= sessions.Keys
        invariant forall s :: Holds(sessions, s, hash) ==> s in left
        decreases |left|
      {
        var s :| s in left;
        if sessions[s].tokenHash == hash {
          AccountRuns.HolderIs(sessions, s, hash);
          return Some(s);
        }
        left := left - {s};
      }
      return None;
    }

    /** SELECT COUNT(*) of the other active admins, compared with 0. */
    method EnsureAnotherAdminExists(excluding: string) returns (ok: bool)
      ensures ok == AnotherAdminExists(users, excluding)
    {
      var count, left := 0, users.Keys;
      while left != {}
        invariant left <= users.Keys
        invariant count > 0 <==> exists id ::
                  id in users && id !in left && id != excluding && users[id].admin && users[id].active
        decreases |left|
      {
        var id :| id in left;
        left := left - {id};
        if users[id].admin && users[id].active && id != excluding { count := count + 1; }
      }
      return count > 0;
    }

    /** An expired session, or one of a disabled user, is deleted on sight. */
    method Require(cookie: string, now: int) returns (actor: Option<string>)
      requires Valid(Tables())
      modifies this`sessions
      ensures (Tables(), actor) == Accounts.Require(w, old(Tables()), cookie, now)
    {
      if cookie == "" { return None; }
      var found := FindSession(w.sha(cookie));
      if found.None? { return None; }
      var session := sessions[found.value];
      if now > session.expires || !users[session.user].active {
        sessions := sessions - {found.value};
        return None;
      }
      return Some(session.user);
    }

    method CreateSession(user: string, m: Minted) returns (reply: Reply)
      requires UniqueHashes(sessions)
      modifies this`sessions
      ensures Outcome(Tables(), reply) == Accounts.CreateSession(w, old(Tables()), user, m)
    {
      var taken := FindSession(w.sha(m.token));
      if m.id in sessions || taken.Some? { return SessionError; }
      sessions := sessions[m.id := Session(user, w.sha(m.token), m.now + w.sessionTtl)];
      return SignedIn(user);
    }

    method SaveRecoveryKey(user: string, key: string)
      requires user in users
      modifies this`users
      ensures users == old(users)[user := old(users)[user].(recovery := w.sha(NormalizeRecoveryKey(key)))]
    {
      users := users[user := users[user].(recovery := w.sha(NormalizeRecoveryKey(key)))];
    }

    method CreateAccount(
        id: string, email: string, admin: bool, password: string, salt: int, mustChange: bool, recoveryKey: string,
        now: int)
      returns (reply: Reply)
      requires UniqueEmails(users)
      modifies this`users
      ensures Outcome(Tables(), reply)
           == Accounts.CreateAccount(w, old(Tables()), id, email, admin, password, salt, mustChange, recoveryKey, now)
    {
      var address := NormalizeEmail(email);
      if address == "" || '@' !in address { return Rejected; }
      var taken := FindUserByEmail(email);
      if id in users || taken.Some? { return Rejected; }
      users := users[id := User(address, w.hashPassword(password, salt), "", admin, true, mustChange, now)];
      SaveRecoveryKey(id, recoveryKey);
      assert users == old(users)[id := users[id]];
      return Done;
    }

    method Bootstrap(id: string, email: string, password: string, salt: int, key: string, now: int)
      returns (reply: Reply)
      requires UniqueEmails(users)
      modifies this`users
      ensures Outcome(Tables(), reply) == Accounts.Bootstrap(w, old(Tables()), id, email, password, salt, key, now)
    {
      if users != map[] { return Done; }
      reply := CreateAccount(id, email, true, password, salt, false, key, now);
    }

    method Login(email: string, password: string, salt: int, minted: Minted) returns (reply: Reply)
      requires Valid(Tables())
      modifies this
      ensures Outcome(Tables(), reply) == Step(w, old(Tables()), Request.Login(email, password, salt, minted))
      ensures Kept(old(Tables()), Tables())
    {
      StepKept(w, Tables(), Request.Login(email, password, salt, minted));
      var found := FindUserByEmail(email);
      if found.None? || !users[found.value].active { return Unauthorized; }
      var id := found.value;
      if !w.verify(password, users[id].passwordHash) { return Unauthorized; }
      if w.outdated(users[id].passwordHash) {
        users := users[id := users[id].(passwordHash := w.hashPassword(password, salt))];
      }
      reply := CreateSession(id, minted);
    }

    method SetNewPassword(user: string, password: string, salt: int) returns (ok: bool)
      requires user in users
      modifies this`users
      ensures ok <==> Accounts.SetNewPassword(w, old(Tables()), user, password, salt).Some?
      ensures Tables() == if ok then Accounts.SetNewPassword(w, old(Tables()), user, password, salt).value
                          else old(Tables())
    {
      var trimmed := Trim(password);
      if !LongEnough(trimmed) { return false; }
      users := users[user := users[user].(passwordHash := w.hashPassword(trimmed, salt), mustChange := false)];
      return true;
    }

    method ChangePassword(cookie: string, now: int, current: string, newPassword: string, salt: int)
      returns (reply: Reply)
      requires Valid(Tables())
      modifies this
      ensures Outcome(Tables(), reply)
              == Step(w, old(Tables()), Request.ChangePassword(cookie, now, current, newPassword, salt))
      ensures Kept(old(Tables()), Tables())
    {
      StepKept(w, Tables(), Request.ChangePassword(cookie, now, current, newPassword, salt));
      var actor := Require(cookie, now);
      if actor.None? { return Unauthorized; }
      if !w.verify(current, users[actor.value].passwordHash) { return Rejected; }
      var ok := SetNewPassword(actor.value, newPassword, salt);
      return if ok then Done else Rejected;
    }

    method RecoverPassword(email: string, key: string, newPassword: string, salt: int, newKey: string, minted: Minted)
      returns (reply: Reply)
      requires Valid(Tables())
      modifies this
      ensures Outcome(Tables(), reply)
           == Step(w, old(Tables()), Request.RecoverPassword(email, key, newPassword, salt, newKey, minted))
      ensures Kept(old(Tables()), Tables())
      ensures reply.SignedIn? ==> reply.user in old(users) && KeyMatches(w, old(users)[reply.user], key)
      ensures reply.SignedIn? ==> forall s :: s in sessions && sessions[s].user == reply.user ==> s == minted.id
    {
      StepKept(w, Tables(), Request.RecoverPassword(email, key, newPassword, salt, newKey, minted));
      ghost var before := Tables();
      var found := FindUserByEmail(email);
      if found.None? || !users[found.value].active || users[found.value].recovery == "" { return Rejected; }
      var id, input := found.value, NormalizeRecoveryKey(key);
      if input == "" || w.sha(input) != users[id].recovery { return Unauthorized; }
      var ok := SetNewPassword(id, newPassword, salt);
      if !ok { return Rejected; }
      SaveRecoveryKey(id, newKey);
      sessions := SessionsDropped(sessions, id);
      AccountRuns.RotatedValid(w, before, id, newPassword, salt, newKey);
      reply := CreateSession(id, minted);
    }

    method Logout(cookie: string, now: int) returns (reply: Reply)
      requires Valid(Tables())
      modifies this
      ensures Outcome(Tables(), reply) == Step(w, old(Tables()), Request.Logout(cookie, now))
      ensures Kept(old(Tables()), Tables())
      ensures reply.Done? ==> AccountRuns.Dead(w, Tables(), cookie)
      ensures users == old(users) && forall s :: s in old(sessions) && old(sessions)[s].tokenHash != w.sha(cookie) ==>
                s in sessions && sessions[s] == old(sessions)[s]
    {
      StepKept(w, Tables(), Request.Logout(cookie, now));
      var actor := Require(cookie, now);
      if actor.None? { return Unauthorized; }
      sessions := HashDropped(sessions, w.sha(cookie));
      return Done;
    }

    method CreateUser(
        cookie: string, now: int, id: string, email: string, role: string, password: string, generated: string,
        salt: int,
        recoveryKey: string) returns (reply: Reply)
      requires Valid(Tables())
      modifies this
      ensures Outcome(Tables(), reply)
           == Step(w, old(Tables()),
                   Request.CreateUser(cookie, now, id, email, role, password, generated, salt, recoveryKey))
      ensures Kept(old(Tables()), Tables())
    {
      StepKept(w, Tables(), Request.CreateUser(cookie, now, id, email, role, password, generated, salt, recoveryKey));
      var actor := Require(cookie, now);
      if actor.None? { return Unauthorized; }
      if !users[actor.value].admin { return Forbidden; }
      var asked := if role == "" then "user" else role;
      if asked != "admin" && asked != "user" { return Rejected; }
      var chosen := Trim(password);
      if chosen == "" { chosen := generated; }
      if !LongEnough(chosen) { return Rejected; }
      reply := CreateAccount(id, email, asked == "admin", chosen, salt, true, recoveryKey, now);
    }

    method UpdateUser(cookie: string, now: int, target: string, edit: Edit) returns (reply: Reply)
      requires Valid(Tables())
      modifies this
      ensures Outcome(Tables(), reply) == Step(w, old(Tables()), Request.UpdateUser(cookie, now, target, edit))
      ensures Kept(old(Tables()), Tables())
      ensures forall u :: u in old(users) && u != target ==> u in users && users[u] == old(users)[u]
      ensures reply.Done? && DropsSessions(edit) ==> forall s :: s in sessions ==> sessions[s].user != target
    {
      StepKept(w, Tables(), Request.UpdateUser(cookie, now, target, edit));
      var actor := Require(cookie, now);
      if actor.None? { return Unauthorized; }
      if !users[actor.value].admin { return Forbidden; }
      if target !in users { return NotFound; }
      if target == actor.value && TouchesOwn(users[target], edit) { return OwnAccount; }
      if Demotes(users[target], edit) {
        var ok := EnsureAnotherAdminExists(target);
        if !ok { return LastAdmin; }
      }
      reply := ApplyEdit(target, edit);
    }

    /** The list of columns to set grows field by field; an empty one is an error. */
    method ApplyEdit(target: string, edit: Edit) returns (reply: Reply)
      requires target in users
      modifies this
      ensures reply == if Understood(edit) then Done else Rejected
      ensures users == if reply == Done then old(users)[target := Edited(w, old(users)[target], edit)] else old(users)
      ensures sessions
           == if reply == Done && DropsSessions(edit) then SessionsDropped(old(sessions), target) else old(sessions)
    {
      if edit.role.Some? && edit.role.value != "admin" && edit.role.value != "user" { return Rejected; }
      if edit.status.Some? && edit.status.value != "active" && edit.status.value != "disabled" { return Rejected; }
      var user, columns := users[target], 0;
      if edit.rename { columns := columns + 1; }
      if edit.role.Some? {
        user := user.(admin := edit.role.value == "admin");
        columns := columns + 1;
      }
      if edit.status.Some? {
        user := user.(active := edit.status.value == "active");
        columns := columns + 1;
      }
      if edit.reset {
        user := user.(passwordHash := w.hashPassword(edit.temporary, edit.salt), mustChange := true);
        columns := columns + 2;
      }
      if columns == 0 { return Rejected; }
      users := users[target := user];
      if edit.status == Some("disabled") || edit.reset { sessions := SessionsDropped(sessions, target); }
      return Done;
    }

    method DeleteUser(cookie: string, now: int, target: string) returns (reply: Reply)
      requires Valid(Tables())
      modifies this
      ensures Outcome(Tables(), reply) == Step(w, old(Tables()), Request.DeleteUser(cookie, now, target))
      ensures Kept(old(Tables()), Tables())
      ensures reply.Done? ==> target !in users && forall s :: s in sessions ==> sessions[s].user != target
      ensures forall u :: u in old(users) && u != target ==> u in users && users[u] == old(users)[u]
    {
      StepKept(w, Tables(), Request.DeleteUser(cookie, now, target));
      var actor := Require(cookie, now);
      if actor.None? { return Unauthorized; }
      if !users[actor.value].admin { return Forbidden; }
      if target == actor.value { return OwnAccount; }
      if target !in users { return NotFound; }
      if users[target].admin {
        var ok := EnsureAnotherAdminExists(target);
        if !ok { return LastAdmin; }
      }
      users := users - {target};
      sessions := SessionsDropped(sessions, target);
      return Done;
    }
  }
}
