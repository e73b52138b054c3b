/**
 Exactly when the requests of a signed-in client and of the panel are done, and every row they leave (the handlers of
 internal/bitwarden/api.go and service.go, and those of internal/admin that reach the same tables).
 */
module ClientRequests {
  import opened Text
  import opened Bytes
  import opened Bitwarden
  import R = RefreshTokens

  /** The session's user is active and has an account with a user key. */
  predicate MayAct(st: State, user: string) {
    && user in st.users && st.users[user].active
    && user in st.accounts && st.accounts[user].userKey != ""
  }

  /** The text sent decodes to the bytes that the stored hash decodes to; a blank one on either side proves nothing. */
  ghost predicate ProvesHash(w: World, st: State, user: string, sent: string)
    requires user in st.accounts
  {
    && Trim(sent) != "" && st.accounts[user].passwordHash != ""
    && exists b :: w.unstd64(Trim(sent)) == Some(b) && w.unstd64(st.accounts[user].passwordHash) == Some(b)
  }

  ghost predicate ProvesCode(w: World, st: State, user: string, code: string, now: int)
    requires user in st.accounts
  {
    st.accounts[user].totpSecret != "" && w.validTotp(st.accounts[user].totpSecret, code, now)
  }

  lemma ProvesHashMeans(w: World, st: State, user: string, sent: string)
    requires user in st.accounts
    ensures ProvesHash(w, st, user, sent) <==> VerifyProvidedHash(w, st.accounts[user], sent)
  {
  }

  /** Nothing is refused halfway. */
  ghost predicate DoneIff(st: State, o: Outcome, condition: bool) {
    o.reply == (if condition then Done else Refused) && (!condition ==> o.state == st)
  }

  /** One account row has changed, to this. */
  ghost predicate OnlyAccount(st: State, after: State, user: string, row: Account) {
    && after.users == st.users && after.ciphers == st.ciphers
    && after.accounts.Keys == st.accounts.Keys + {user} && after.accounts[user] == row
    && forall a :: a in st.accounts && a != user ==> after.accounts[a] == st.accounts[a]
  }

  /** Tokens of the user's devices are gone; the devices, and what they remember, stay. */
  ghost predicate LoggedOut(before: map<string, Device>, after: map<string, Device>, user: string) {
    && after.Keys == before.Keys
    && forall d :: d in before ==>
         after[d] == if before[d].user == user then Device(user, None, before[d].remember) else before[d]
  }

  /** The user's devices are gone. */
  ghost predicate Dropped<R(!new)>(before: map<string, R>, after: map<string, R>, user: string, owner: R -> string) {
    && (forall d :: d in after <==> d in before && owner(before[d]) != user)
    && (forall d :: d in after ==> after[d] == before[d])
  }

  function DeviceUser(): Device -> string { (d: Device) => d.user }

  function CipherUser(): CipherRow -> string { (c: CipherRow) => c.user }

  // ---- key material ---------------------------------------------------------------------------

  /** A master-password change needs the old hash, replaces hash, key and stamp together and logs every device out. */
  lemma MasterPasswordChange(w: World, st: State, r: Request)
    requires r.ChangeMasterPassword?
    ensures var o, user := Step(w, st, r), r.user;
            && DoneIff(st, o, MayAct(st, user) && ProvesHash(w, st, user, r.hash) && r.newHash != "" && r.newKey != "")
            && (o.reply.Done? ==>
                  && LoggedOut(st.devices, o.state.devices, user)
                  && OnlyAccount(st, o.state, user, Account(
                       r.newHash, r.newKey, st.accounts[user].privateKey, st.accounts[user].publicKey, r.stamp,
                       st.accounts[user].twoFactor, st.accounts[user].totpSecret)))
  {
    if r.user in st.accounts { ProvesHashMeans(w, st, r.user, r.hash); }
  }

  /** A key pair is taken once, whole. */
  lemma KeysPostedOnce(w: World, st: State, r: Request)
    requires r.PostKeys?
    ensures var o, user := Step(w, st, r), r.user;
            && DoneIff(st, o, MayAct(st, user) && st.accounts[user].privateKey == ""
                              && r.privateKey != "" && r.publicKey != "")
            && (o.reply.Done? ==>
                  && o.state.devices == st.devices
                  && OnlyAccount(st, o.state, user, Account(
                       st.accounts[user].passwordHash, st.accounts[user].userKey, r.privateKey, r.publicKey,
                       st.accounts[user].stamp, st.accounts[user].twoFactor, st.accounts[user].totpSecret)))
  {
  }

  /** A stamp reset needs the hash, deletes the user's devices and changes nothing else of the account. */
  lemma StampResetDropsDevices(w: World, st: State, r: Request)
    requires r.SecurityStamp?
    ensures var o, user := Step(w, st, r), r.user;
            && DoneIff(st, o, MayAct(st, user) && ProvesHash(w, st, user, r.hash))
            && (o.reply.Done? ==>
                  && Dropped(st.devices, o.state.devices, user, DeviceUser())
                  && OnlyAccount(st, o.state, user, Account(
                       st.accounts[user].passwordHash, st.accounts[user].userKey, st.accounts[user].privateKey,
                       st.accounts[user].publicKey, r.stamp, st.accounts[user].twoFactor,
                       st.accounts[user].totpSecret)))
  {
    if r.user in st.accounts { ProvesHashMeans(w, st, r.user, r.hash); }
  }

  // ---- the second factor ----------------------------------------------------------------------

  /** The account row with another second factor. */
  function WithFactor(row: Account, twoFactor: bool, secret: string): Account {
    Account(row.passwordHash, row.userKey, row.privateKey, row.publicKey, row.stamp, twoFactor, secret)
  }

  /**
   Asking for an authenticator needs the hash only if one is sent, and draws a secret only when there is none; a code
   of that secret turns the factor on; the hash or a code turns it off and forgets the secret.
   */
  lemma SecondFactorSetting(w: World, st: State, r: Request)
    requires OnTwoFactor(r)
    ensures var o, user := Step(w, st, r), r.user;
            && DoneIff(st, o, MayAct(st, user) &&
                 match r
                 case EnableAuthenticator(_, hash, _) => hash == "" || ProvesHash(w, st, user, hash)
                 case ConfirmAuthenticator(_, code, now) => ProvesCode(w, st, user, code, now)
                 case DisableTwoFactor(_, hash, code, now) =>
                   ProvesHash(w, st, user, hash) || ProvesCode(w, st, user, code, now))
            && (o.reply.Done? ==>
                  && o.state.devices == st.devices
                  && OnlyAccount(st, o.state, user,
                       var row := st.accounts[user];
                       match r
                       case EnableAuthenticator(_, _, seed) =>
                         WithFactor(row, row.twoFactor, if row.totpSecret == "" then seed else row.totpSecret)
                       case ConfirmAuthenticator(_, _, _) => WithFactor(row, true, row.totpSecret)
                       case DisableTwoFactor(_, _, _, _) => WithFactor(row, false, "")))
  {
    if r.user in st.accounts && !r.ConfirmAuthenticator? { ProvesHashMeans(w, st, r.user, r.hash); }
  }

  // ---- ciphers --------------------------------------------------------------------------------

  /** A cipher is added under a new id, rewritten or deleted by its own user, and no other row changes. */
  lemma CipherChange(w: World, st: State, r: Request)
    requires OnCipher(r)
    ensures var o, user, id := Step(w, st, r), r.user, r.cipher;
            && DoneIff(st, o, MayAct(st, user) && (if r.CreateCipher? then id !in st.ciphers
                                                   else id in st.ciphers && st.ciphers[id].user == user))
            && (o.reply.Done? ==>
                  && o.state == st.(ciphers := o.state.ciphers)
                  && (r.DeleteCipher? <==> id !in o.state.ciphers)
                  && (!r.DeleteCipher? ==> o.state.ciphers[id] == CipherRow(user, r.secret))
                  && (forall c :: c != id ==> (c in o.state.ciphers <==> c in st.ciphers))
                  && (forall c :: c != id && c in st.ciphers ==> o.state.ciphers[c] == st.ciphers[c]))
  {
  }

  // ---- the panel ------------------------------------------------------------------------------

  /** The account has a hash, and the user a device: a client has used it. */
  ghost predicate UsedByClient(st: State, user: string) {
    && user in st.accounts && st.accounts[user].passwordHash != ""
    && exists d :: d in st.devices && st.devices[d].user == user
  }

  /** The row that provisioning writes: everything new but the second factor. */
  ghost predicate IsProvisioned(
      w: World, row: Account, email: string, password: string, m: Material, factor: bool, secret: string)
  {
    var salt := Lower(Trim(email));
    && row.passwordHash == w.hashKey(w.kdf(password, salt), salt)
    && row.userKey == w.wrap(w.kdf(password, salt), m.wrapIv, m.userKey)
    && row.privateKey == w.seal(m.userKey, m.keyIv, m.privateKey) && row.publicKey == m.publicKey
    && row.stamp == m.stamp && row.twoFactor == factor && row.totpSecret == secret
  }

  /** A panel password provisions the account unless a client has used it, and never turns the second factor off. */
  lemma PanelPasswordProvisions(w: World, st: State, r: Request)
    requires r.PanelPassword?
    ensures var o, user := Step(w, st, r), r.user;
            && o.reply == (if user in st.users then Done else Refused)
            && (user !in st.users || UsedByClient(st, user) ==> o.state == st)
            && (user in st.users && !UsedByClient(st, user) ==>
                  && o.state.devices == st.devices && user in o.state.accounts
                  && OnlyAccount(st, o.state, user, o.state.accounts[user])
                  && IsProvisioned(w, o.state.accounts[user], st.users[user].email, r.password, r.material,
                                   user in st.accounts && st.accounts[user].twoFactor,
                                   if user in st.accounts then st.accounts[user].totpSecret else ""))
  {
  }

  /** A new account needs a new id and a free address with an "@", and is active and provisioned at once. */
  lemma AccountCreation(w: World, st: State, r: Request)
    requires Valid(st) && r.CreateAccount?
    ensures var o, email := Step(w, st, r), Lower(Trim(r.email));
            && DoneIff(st, o, '@' in email && r.id !in st.users
                              && forall u :: u in st.users ==> st.users[u].email != email)
            && (o.reply.Done? ==>
                  && o.state.users == st.users[r.id := User(email, true)]
                  && o.state.devices == st.devices && o.state.ciphers == st.ciphers
                  && o.state.accounts.Keys == st.accounts.Keys + {r.id}
                  && (forall a :: a in st.accounts ==> o.state.accounts[a] == st.accounts[a])
                  && IsProvisioned(w, o.state.accounts[r.id], email, r.password, r.material, false, ""))
  {
    CreatedWhen(w, st, r);
    if r.id !in st.users { NewAccountProvisioned(w, st, r.id, Lower(Trim(r.email)), r.password, r.material); }
  }

  lemma CreatedWhen(w: World, st: State, r: Request)
    requires Valid(st) && r.CreateAccount?
    ensures var email := Lower(Trim(r.email));
            Step(w, st, r)
            == if '@' in email && r.id !in st.users && (forall u :: u in st.users ==> st.users[u].email != email) then
                 Outcome(ProvisionUser(w, st.(users := st.users[r.id := User(email, true)]), r.id, r.password,
                                       r.material), Done)
               else Outcome(st, Refused)
  {
    var email := Lower(Trim(r.email));
    if u :| u in st.users && st.users[u].email == email { R.EmailFinds(st.users, u, email); }
  }

  lemma NewAccountProvisioned(w: World, st: State, id: string, email: string, password: string, m: Material)
    requires Valid(st) && id !in st.users
    ensures var added := st.(users := st.users[id := User(email, true)]);
            var after := ProvisionUser(w, added, id, password, m);
            && after == added.(accounts := after.accounts) && after.accounts.Keys == st.accounts.Keys + {id}
            && (forall a :: a in st.accounts ==> after.accounts[a] == st.accounts[a])
            && IsProvisioned(w, after.accounts[id], email, password, m, false, "")
  {
    var added := st.(users := st.users[id := User(email, true)]);
    assert !InUse(added, id) && id !in st.accounts;
  }

  /** A status change touches one column of one row. */
  lemma StatusChange(w: World, st: State, r: Request)
    requires r.SetStatus?
    ensures var o, user := Step(w, st, r), r.user;
            && DoneIff(st, o, user in st.users)
            && (o.reply.Done? ==>
                  && o.state == st.(users := o.state.users) && o.state.users.Keys == st.users.Keys
                  && (forall u :: u in st.users && u != user ==> o.state.users[u] == st.users[u])
                  && o.state.users[user] == User(st.users[user].email, r.active))
  {
  }

  /** A deletion takes the user with account, devices and ciphers, and nobody else's. */
  lemma UserDeletion(w: World, st: State, r: Request)
    requires r.DeleteUser?
    ensures var o, user := Step(w, st, r), r.user;
            && DoneIff(st, o, user in st.users)
            && (o.reply.Done? ==>
                  && (forall u :: u in o.state.users <==> u in st.users && u != user)
                  && (forall u :: u in o.state.users ==> o.state.users[u] == st.users[u])
                  && (forall a :: a in o.state.accounts <==> a in st.accounts && a != user)
                  && (forall a :: a in o.state.accounts ==> o.state.accounts[a] == st.accounts[a])
                  && Dropped(st.devices, o.state.devices, user, DeviceUser())
                  && Dropped(st.ciphers, o.state.ciphers, user, CipherUser()))
  {
  }
}
