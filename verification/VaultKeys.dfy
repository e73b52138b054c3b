/** Who may change an account's key material, and that stored ciphers stay readable, over whole runs. */
module VaultKeys {
  import opened Text
  import opened Bytes
  import opened Bitwarden
  import opened RefreshTokens

  /** Neither deletes the account nor drops its devices. */
  predicate Spares(r: Request, user: string) {
    r != DeleteUser(user) && !(r.SecurityStamp? && r.user == user)
  }

  ghost predicate AllSpare(rs: seq<Request>, user: string) {
    forall i :: 0 <= i < |rs| ==> Spares(rs[i], user)
  }

  // ---- in use ---------------------------------------------------------------------------------

  /** No device row disappears, and none changes hands. */
  ghost predicate DevicesStay(before: map<string, Device>, after: map<string, Device>, user: string) {
    forall d :: d in before && before[d].user == user ==> d in after && after[d].user == user
  }

  lemma RespondStay(w: World, st: State, user: string, device: string, token: string, remember: string, owner: string)
    requires user in st.accounts && device in st.devices
    ensures var after := Respond(w, st, user, device, token, remember).state;
            after == st.(devices := after.devices) && DevicesStay(st.devices, after.devices, owner)
  {
  }

  lemma GrantTouchesDevices(w: World, st: State, user: string, l: Login)
    requires user in st.accounts
    ensures GrantToUser(w, st, user, l).state == st.(devices := GrantToUser(w, st, user, l).state.devices)
  {
  }

  lemma UpsertStay(devices: map<string, Device>, user: string, identifier: string, owner: string)
    ensures DevicesStay(devices, UpsertDevice(devices, user, identifier).0, owner)
  {
  }

  lemma CheckStay(w: World, account: Account, devices: map<string, Device>, user: string, l: Login, owner: string)
    ensures var c := CheckTwoFactor(w, account, devices, user, l);
            c.Passed? ==> DevicesStay(devices, c.devices, owner) && c.devices.Keys == devices.Keys
  {
  }

  lemma GrantUserStay(w: World, st: State, user: string, l: Login, owner: string)
    requires user in st.accounts
    ensures DevicesStay(st.devices, GrantToUser(w, st, user, l).state.devices, owner)
  {
    var (devices, ok) := UpsertDevice(st.devices, user, l.deviceId);
    UpsertStay(st.devices, user, l.deviceId, owner);
    if ok {
      if !st.accounts[user].twoFactor {
        RespondStay(w, st.(devices := devices), user, Trim(l.deviceId), l.token, "", owner);
      } else {
        CheckStay(w, st.accounts[user], devices, user, l, owner);
        var c := CheckTwoFactor(w, st.accounts[user], devices, user, l);
        if c.Passed? {
          RespondStay(w, st.(devices := c.devices), user, Trim(l.deviceId), l.token, c.rememberToken, owner);
        }
      }
    }
  }

  lemma PasswordStay(w: World, st: State, l: Login, owner: string)
    ensures var after := GrantByPassword(w, st, l).state;
            after == st.(devices := after.devices) && DevicesStay(st.devices, after.devices, owner)
  {
    var user := UserByEmail(st.users, NormalizeSalt(l.username));
    if user.Some? && user.value in st.accounts {
      GrantTouchesDevices(w, st, user.value, l);
      GrantUserStay(w, st, user.value, l, owner);
    }
  }

  lemma RefreshStay(w: World, st: State, token: string, newToken: string, owner: string)
    ensures var after := GrantByRefresh(w, st, token, newToken).state;
            after == st.(devices := after.devices) && DevicesStay(st.devices, after.devices, owner)
  {
  }

  lemma PanelStay(w: World, st: State, r: Request, owner: string)
    requires FromPanel(r) && r != DeleteUser(owner)
    ensures DevicesStay(st.devices, ByPanel(w, st, r).state.devices, owner)
  {
  }

  predicate SameAccount(before: State, after: State, user: string) {
    && user in before.users && user in after.users && after.users[user].email == before.users[user].email
    && user in before.accounts && user in after.accounts && after.accounts[user] == before.accounts[user]
  }

  lemma ProvisionKeepsInUse(w: World, st: State, other: string, password: string, m: Material, user: string)
    requires InUse(st, user) && user in st.users
    ensures SameAccount(st, ProvisionUser(w, st, other, password, m), user)
  {
    ProvisionWrites(w, st, other, password, m);
  }

  /** A panel request leaves the account row of a user whose account is in use as it is. */
  lemma PanelKeepsKeys(w: World, st: State, r: Request, user: string)
    requires FromPanel(r) && r != DeleteUser(user)
    requires InUse(st, user) && user in st.users
    ensures SameAccount(st, ByPanel(w, st, r).state, user)
  {
    if r.CreateAccount? {
      var added := st.(users := st.users[r.id := User(Lower(Trim(r.email)), true)]);
      if r.id !in st.users { ProvisionKeepsInUse(w, added, r.id, r.password, r.material, user); }
    } else if r.PanelPassword? {
      ProvisionKeepsInUse(w, st, r.user, r.password, r.material, user);
    }
  }

  lemma ClientDevicesStay(w: World, st: State, actor: string, r: Request, user: string)
    requires SignedIn(st, actor) && Spares(r, user) && (r.SecurityStamp? ==> r.user == actor)
    ensures DevicesStay(st.devices, ByClient(w, st, actor, r).state.devices, user)
  {
  }

  lemma ClientKeepsUsers(w: World, st: State, actor: string, r: Request)
    requires SignedIn(st, actor)
    ensures ByClient(w, st, actor, r).state.users == st.users
  {
  }

  lemma ClientKeepsOthers(w: World, st: State, actor: string, r: Request, user: string)
    requires SignedIn(st, actor) && user in st.accounts && user != actor
    ensures var after := ByClient(w, st, actor, r).state;
            user in after.accounts && after.accounts[user] == st.accounts[user]
  {
  }

  lemma ClientKeepsHash(w: World, st: State, actor: string, r: Request)
    requires SignedIn(st, actor) && st.accounts[actor].passwordHash != ""
    ensures var after := ByClient(w, st, actor, r).state;
            actor in after.accounts && after.accounts[actor].passwordHash != ""
  {
  }

  lemma StillInUse(st: State, after: State, user: string)
    requires InUse(st, user) && DevicesStay(st.devices, after.devices, user)
    requires user in after.accounts && after.accounts[user].passwordHash != ""
    ensures InUse(after, user)
  {
    var d :| d in st.devices && st.devices[d].user == user;
    assert d in after.devices && after.devices[d].user == user;
  }

  /** An account in use stays in use until its devices are dropped or it is deleted. */
  lemma StaysInUse(w: World, st: State, r: Request, user: string)
    requires InUse(st, user) && user in st.users && Spares(r, user)
    ensures var after := Step(w, st, r).state;
            InUse(after, user) && user in after.users && after.users[user].email == st.users[user].email
  {
    var after := Step(w, st, r).state;
    if FromPanel(r) {
      PanelStay(w, st, r, user);
      PanelKeepsKeys(w, st, r, user);
    } else if r.PasswordGrant? {
      PasswordStay(w, st, r.login, user);
    } else if r.RefreshGrant? {
      RefreshStay(w, st, r.token, r.newToken, user);
    } else if SignedIn(st, r.user) {
      ClientDevicesStay(w, st, r.user, r, user);
      ClientKeepsUsers(w, st, r.user, r);
      if r.user == user { ClientKeepsHash(w, st, user, r); } else { ClientKeepsOthers(w, st, r.user, r, user); }
    }
    StillInUse(st, after, user);
  }

  lemma {:induction false} StaysInUseForever(w: World, st: State, rs: seq<Request>, user: string)
    requires InUse(st, user) && user in st.users && AllSpare(rs, user)
    ensures InUse(Run(w, st, rs), user) && user in Run(w, st, rs).users
    ensures Run(w, st, rs).users[user].email == st.users[user].email
    decreases |rs|
  {
    if rs != [] {
      StaysInUse(w, st, rs[0], user);
      StaysInUseForever(w, Step(w, st, rs[0]).state, rs[1..], user);
    }
  }

  lemma PasswordGrantUses(w: World, st: State, l: Login)
    requires GrantByPassword(w, st, l).reply.Granted?
    ensures var o := GrantByPassword(w, st, l);
            InUse(o.state, o.reply.user) && o.reply.user in o.state.users && CanLogIn(st, o.reply.user)
  {
    var user := UserByEmail(st.users, NormalizeSalt(l.username)).value;
    PasswordGrantInstalls(w, st, user, l);
    GrantTouchesDevices(w, st, user, l);
    var o := GrantByPassword(w, st, l);
    assert o == GrantToUser(w, st, user, l);
    assert o.state.devices[o.reply.device].user == user;
  }

  /**
   Once a password grant has succeeded for a user, no panel request changes that account's key material, in
   any run that neither resets the user's security stamp nor deletes the user.
   */
  lemma PanelNeverTouchesKeys(w: World, st: State, login: Login, rs: seq<Request>, panel: Request)
    requires Step(w, st, PasswordGrant(login)).reply.Granted?
    requires var user := Step(w, st, PasswordGrant(login)).reply.user;
             && AllSpare(rs, user)
             && FromPanel(panel) && panel != DeleteUser(user)
    ensures var o := Step(w, st, PasswordGrant(login));
            var before := Run(w, o.state, rs);
            && o.reply.user in before.accounts
            && AccountOf(Step(w, before, panel).state, o.reply.user) == AccountOf(before, o.reply.user)
  {
    var o := Step(w, st, PasswordGrant(login));
    PasswordGrantUses(w, st, login);
    StaysInUseForever(w, o.state, rs, o.reply.user);
    PanelKeepsKeys(w, Run(w, o.state, rs), panel, o.reply.user);
  }

  /** A panel password leaves an account's row as it is exactly when the account is in use. */
  lemma OverwritesExactlyWhenUnused(w: World, st: State, user: string, password: string, m: Material)
    requires user in st.users && user in st.accounts && m.stamp != st.accounts[user].stamp
    ensures AccountOf(Step(w, st, PanelPassword(user, password, m)).state, user) == AccountOf(st, user)
            <==> InUse(st, user)
  {
  }

  /** What may have happened to an account row between two states: its owner changed it, knowing the old hash. */
  predicate ChangedByOwner(w: World, prior: Account, later: Account, r: Request, user: string) {
    && (prior.passwordHash != later.passwordHash || prior.userKey != later.userKey ==>
          r.ChangeMasterPassword? && r.user == user && VerifyProvidedHash(w, prior, r.hash)
          && r.newHash == later.passwordHash && r.newKey == later.userKey)
    && (prior.privateKey != later.privateKey ==>
          r.PostKeys? && r.user == user && prior.privateKey == "" && r.privateKey == later.privateKey)
  }

  lemma ClientChangesOwn(w: World, st: State, actor: string, r: Request)
    requires SignedIn(st, actor) && !FromPanel(r) && !r.PasswordGrant? && !r.RefreshGrant? && r.user == actor
    ensures var after := ByClient(w, st, actor, r).state;
            actor in after.accounts && ChangedByOwner(w, st.accounts[actor], after.accounts[actor], r, actor)
  {
  }

  /** Of an account in use, only its own client changes the password hash and user key, and must know the old hash. */
  lemma KeysChangeOnlyByOwner(w: World, st: State, r: Request, user: string)
    requires InUse(st, user) && user in st.users && r != DeleteUser(user)
    ensures var after := Step(w, st, r).state;
            user in after.accounts && ChangedByOwner(w, st.accounts[user], after.accounts[user], r, user)
  {
    if FromPanel(r) {
      PanelKeepsKeys(w, st, r, user);
    } else if r.PasswordGrant? {
      PasswordStay(w, st, r.login, user);
    } else if r.RefreshGrant? {
      RefreshStay(w, st, r.token, r.newToken, user);
    } else if SignedIn(st, r.user) {
      if r.user == user { ClientChangesOwn(w, st, user, r); } else { ClientKeepsOthers(w, st, r.user, r, user); }
    }
  }

  // ---- readable vaults ------------------------------------------------------------------------

  /** The master key matches the stored hash and opens the stored user key. */
  ghost predicate Unlocks(w: World, st: State, user: string, masterKey: Bytes, userKey: Bytes) {
    && user in st.users && user in st.accounts && |masterKey| == MASTER_BYTES
    && st.accounts[user].passwordHash == w.hashKey(masterKey, NormalizeSalt(st.users[user].email))
    && w.unwrap(masterKey, st.accounts[user].userKey) == Some(userKey)
  }

  /** Some master key is current, it gives `userKey`, and every stored cipher of the user opens with that. */
  ghost predicate Readable(w: World, st: State, user: string, userKey: Bytes) {
    && (exists masterKey :: Unlocks(w, st, user, masterKey, userKey))
    && CiphersOpen(w, st.ciphers, user, userKey)
  }

  ghost predicate CiphersOpen(w: World, ciphers: map<string, CipherRow>, user: string, userKey: Bytes) {
    forall c :: c in ciphers && ciphers[c].user == user ==> w.open(userKey, ciphers[c].secret).Some?
  }

  /** A client that does its part: it stores what it sealed, and re-wraps the same key under a new master key. */
  ghost predicate Honest(w: World, r: Request, user: string, email: string, userKey: Bytes) {
    && (r.ChangeMasterPassword? && r.user == user ==> Rewraps(w, r.newHash, r.newKey, email, userKey))
    && (forall secret :: secret in Carried(r, user) ==> w.open(userKey, secret).Some?)
  }

  /** The cipher texts that a request of `user` carries. */
  function Carried(r: Request, user: string): seq<string> {
    match r
    case CreateCipher(actor, _, secret) => if actor == user then [secret] else []
    case UpdateCipher(actor, _, secret) => if actor == user then [secret] else []
    case ImportCiphers(actor, items) => if actor == user then Secrets(items) else []
    case _ => []
  }

  function Secrets(items: seq<Item>): seq<string> {
    if items == [] then []
    else (if items[0].secret.Some? then [items[0].secret.value] else []) + Secrets(items[1..])
  }

  ghost predicate Rewraps(w: World, newHash: string, newKey: string, email: string, userKey: Bytes) {
    exists masterKey: Bytes, iv: Bytes ::
      |masterKey| == MASTER_BYTES && |iv| == IV_BYTES && newHash == w.hashKey(masterKey, NormalizeSalt(email))
      && newKey == w.wrap(masterKey, iv, userKey)
  }

  ghost predicate AllHonest(w: World, rs: seq<Request>, user: string, email: string, userKey: Bytes) {
    forall i :: 0 <= i < |rs| ==> Honest(w, rs[i], user, email, userKey)
  }

  lemma PanelCiphers(w: World, st: State, r: Request, user: string)
    requires FromPanel(r)
    ensures forall c :: c in ByPanel(w, st, r).state.ciphers ==>
              c in st.ciphers && ByPanel(w, st, r).state.ciphers[c] == st.ciphers[c]
  {
  }

  /** The only cipher texts a client request can add are those it carries, under its own user. */
  ghost predicate AddsOnly(
      before: map<string, CipherRow>, after: map<string, CipherRow>, user: string, secrets: seq<string>)
  {
    forall c :: c in after ==>
      (c in before && after[c] == before[c]) || (after[c].user == user && after[c].secret in secrets)
  }

  lemma {:induction false} ImportAdds(ciphers: map<string, CipherRow>, actor: string, items: seq<Item>)
    ensures AddsOnly(ciphers, CiphersImported(ciphers, actor, items).0, actor, Secrets(items))
    decreases |items|
  {
    if items != [] && items[0].secret.Some? && items[0].cipher !in ciphers {
      ImportAdds(ciphers[items[0].cipher := CipherRow(actor, items[0].secret.value)], actor, items[1..]);
    }
  }

  lemma ClientAdds(w: World, st: State, actor: string, r: Request)
    requires SignedIn(st, actor) && !FromPanel(r) && !r.PasswordGrant? && !r.RefreshGrant? && r.user == actor
    ensures AddsOnly(st.ciphers, ByClient(w, st, actor, r).state.ciphers, actor, Carried(r, actor))
  {
    if OnCipher(r) && CiphersSet(st.ciphers, actor, r).Some? {
      CiphersAdd(st.ciphers, actor, r);
    } else if r.ImportCiphers? {
      ImportAdds(st.ciphers, actor, r.items);
    } else {
      assert ByClient(w, st, actor, r).state.ciphers == st.ciphers;
    }
  }

  lemma CiphersAdd(ciphers: map<string, CipherRow>, actor: string, r: Request)
    requires OnCipher(r) && r.user == actor && CiphersSet(ciphers, actor, r).Some?
    ensures AddsOnly(ciphers, CiphersSet(ciphers, actor, r).value, actor, Carried(r, actor))
  {
  }

  lemma ClientCiphers(w: World, st: State, r: Request, user: string, userKey: Bytes)
    requires !FromPanel(r) && !r.PasswordGrant? && !r.RefreshGrant? && SignedIn(st, r.user)
    requires CiphersOpen(w, st.ciphers, user, userKey)
    requires forall secret :: secret in Carried(r, user) ==> w.open(userKey, secret).Some?
    ensures CiphersOpen(w, ByClient(w, st, r.user, r).state.ciphers, user, userKey)
  {
    ClientAdds(w, st, r.user, r);
  }

  lemma StepCiphers(w: World, st: State, r: Request, user: string, email: string, userKey: Bytes)
    requires CiphersOpen(w, st.ciphers, user, userKey) && Honest(w, r, user, email, userKey)
    ensures CiphersOpen(w, Step(w, st, r).state.ciphers, user, userKey)
  {
    if FromPanel(r) {
      PanelCiphers(w, st, r, user);
    } else if r.PasswordGrant? {
      PasswordStay(w, st, r.login, user);
    } else if r.RefreshGrant? {
      RefreshStay(w, st, r.token, r.newToken, user);
    } else if SignedIn(st, r.user) {
      ClientCiphers(w, st, r, user, userKey);
    }
  }

  lemma StepUnlocks(w: World, st: State, r: Request, user: string, masterKey: Bytes, userKey: Bytes)
    returns (next: Bytes)
    requires Lawful(w) && InUse(st, user) && Spares(r, user)
    requires Unlocks(w, st, user, masterKey, userKey) && Honest(w, r, user, st.users[user].email, userKey)
    ensures Unlocks(w, Step(w, st, r).state, user, next, userKey)
  {
    StaysInUse(w, st, r, user);
    KeysChangeOnlyByOwner(w, st, r, user);
    var prior, later := st.accounts[user], Step(w, st, r).state.accounts[user];
    next := masterKey;
    if prior.passwordHash != later.passwordHash || prior.userKey != later.userKey {
      var email := st.users[user].email;
      var mk: Bytes, iv: Bytes :| |mk| == MASTER_BYTES && |iv| == IV_BYTES
        && r.newHash == w.hashKey(mk, NormalizeSalt(email))
                                  && r.newKey == w.wrap(mk, iv, userKey);
      next := mk;
    }
  }

  /**
   The vault stays readable: if every client re-wraps the same user key when it changes the master password,
   then after any run that neither resets the stamp nor deletes the user, a current master key still opens
   the user key and every stored cipher.
   */
  lemma {:induction false} VaultStaysReadable(w: World, st: State, rs: seq<Request>, user: string, userKey: Bytes)
    requires Lawful(w) && AllSpare(rs, user)
    requires InUse(st, user) && Readable(w, st, user, userKey) && user in st.users
    requires AllHonest(w, rs, user, st.users[user].email, userKey)
    ensures Readable(w, Run(w, st, rs), user, userKey) && InUse(Run(w, st, rs), user)
    decreases |rs|
  {
    if rs != [] {
      var r := rs[0];
      var masterKey :| Unlocks(w, st, user, masterKey, userKey);
      StaysInUse(w, st, r, user);
      var next := StepUnlocks(w, st, r, user, masterKey, userKey);
      StepCiphers(w, st, r, user, st.users[user].email, userKey);
      VaultStaysReadable(w, Step(w, st, r).state, rs[1..], user, userKey);
    }
  }

  // ---- logging in -----------------------------------------------------------------------------

  /** No other 32-byte master key both has, for this user, the hash of the given key and unwraps `wrapped`. */
  ghost predicate NoCollision(w: World, st: State, user: string, key: Bytes, wrapped: string) {
    user in st.users
    && var salt := NormalizeSalt(st.users[user].email);
       forall other :: |other| == MASTER_BYTES && other != key && w.hashKey(other, salt) == w.hashKey(key, salt) ==>
                         w.unwrap(other, wrapped).None?
  }

  /** The same of the key that a client derives from a new password, for the user key wrapped under it. */
  ghost predicate NoCollisionOfPassword(w: World, st: State, user: string, password: string, m: Material) {
    user in st.users
    && var key := w.kdf(password, NormalizeSalt(st.users[user].email));
       NoCollision(w, st, user, key, w.wrap(key, m.wrapIv, m.userKey))
  }

  /** The same of the key that a login carries, if it carries one, for the stored user key. */
  ghost predicate NoCollisionOfLogin(w: World, st: State, user: string, l: Login) {
    DecodeKey(w, l.password).Some? && user in st.accounts ==>
      NoCollision(w, st, user, DecodeKey(w, l.password).value, st.accounts[user].userKey)
  }

  lemma RespondReply(w: World, st: State, user: string, device: string, token: string, remember: string)
    requires user in st.accounts && device in st.devices
    ensures var reply := Respond(w, st, user, device, token, remember).reply;
            reply.Granted? ==> reply.user == user && reply.key == st.accounts[user].userKey
                               && reply.privateKey == st.accounts[user].privateKey
    ensures Dead(w, st, token) ==> Respond(w, st, user, device, token, remember).reply.Granted?
  {
  }

  lemma GrantKeysOfAccount(w: World, st: State, user: string, l: Login)
    requires user in st.accounts && GrantToUser(w, st, user, l).reply.Granted?
    ensures var reply := GrantToUser(w, st, user, l).reply;
            reply.user == user && reply.key == st.accounts[user].userKey
              && reply.privateKey == st.accounts[user].privateKey
  {
    var (devices, ok) := UpsertDevice(st.devices, user, l.deviceId);
    if !st.accounts[user].twoFactor {
      RespondReply(w, st.(devices := devices), user, Trim(l.deviceId), l.token, "");
    } else {
      var c := CheckTwoFactor(w, st.accounts[user], devices, user, l);
      RespondReply(w, st.(devices := c.devices), user, Trim(l.deviceId), l.token, c.rememberToken);
    }
  }

  /** A login hands out the stored key only to a master key that matches the stored hash. */
  lemma GrantedMeansAuthentic(w: World, st: State, l: Login)
    requires GrantByPassword(w, st, l).reply.Granted?
    ensures var reply := GrantByPassword(w, st, l).reply;
            CanLogIn(st, reply.user) && Authentic(w, st, reply.user, l.password)
              && reply.key == st.accounts[reply.user].userKey
  {
    var user := UserByEmail(st.users, NormalizeSalt(l.username)).value;
    assert GrantByPassword(w, st, l) == GrantToUser(w, st, user, l);
    GrantKeysOfAccount(w, st, user, l);
  }

  /** Whoever logs in to a readable vault gets, from the reply and the master key alone, every stored cipher. */
  lemma LoginOpensVault(w: World, st: State, l: Login, userKey: Bytes)
    requires Lawful(w) && GrantByPassword(w, st, l).reply.Granted?
    requires Readable(w, st, GrantByPassword(w, st, l).reply.user, userKey)
    requires NoCollisionOfLogin(w, st, GrantByPassword(w, st, l).reply.user, l)
    ensures DecodeKey(w, l.password).Some?
    ensures var reply := GrantByPassword(w, st, l).reply;
            && w.unwrap(DecodeKey(w, l.password).value, reply.key) == Some(userKey)
            && CiphersOpen(w, st.ciphers, reply.user, userKey)
  {
    GrantedMeansAuthentic(w, st, l);
    var user := GrantByPassword(w, st, l).reply.user;
    var masterKey :| Unlocks(w, st, user, masterKey, userKey);
  }

  /** From one login to any later one: what was readable then is readable now, with the new master password. */
  lemma LaterLoginOpensVault(w: World, st: State, first: Login, rs: seq<Request>, later: Login, userKey: Bytes)
    requires Lawful(w) && Step(w, st, PasswordGrant(first)).reply.Granted?
    requires var o := Step(w, st, PasswordGrant(first));
             && Readable(w, o.state, o.reply.user, userKey) && o.reply.user in o.state.users
             && AllSpare(rs, o.reply.user)
             && AllHonest(w, rs, o.reply.user, o.state.users[o.reply.user].email, userKey)
             && GrantByPassword(w, Run(w, o.state, rs), later).reply.Granted?
             && GrantByPassword(w, Run(w, o.state, rs), later).reply.user == o.reply.user
             && NoCollisionOfLogin(w, Run(w, o.state, rs), o.reply.user, later)
    ensures DecodeKey(w, later.password).Some?
    ensures var user, now := Step(w, st, PasswordGrant(first)).reply.user,
            Run(w, Step(w, st, PasswordGrant(first)).state, rs);
            && w.unwrap(DecodeKey(w, later.password).value, GrantByPassword(w, now, later).reply.key) == Some(userKey)
            && CiphersOpen(w, now.ciphers, user, userKey)
  {
    var o := Step(w, st, PasswordGrant(first));
    PasswordGrantUses(w, st, first);
    VaultStaysReadable(w, o.state, rs, o.reply.user, userKey);
    LoginOpensVault(w, Run(w, o.state, rs), later, userKey);
  }

  // ---- provisioning ---------------------------------------------------------------------------

  /** Provisioning makes the password's master key current for the new user key. */
  lemma ProvisionUnlocks(w: World, st: State, user: string, password: string, m: Material)
    requires Lawful(w) && WellSized(m) && user in st.users && !InUse(st, user)
    ensures var after := ProvisionUser(w, st, user, password, m);
            Unlocks(w, after, user, w.kdf(password, NormalizeSalt(st.users[user].email)), m.userKey)
  {
  }

  /** A first login of a client that derives its key from the panel's password. */
  predicate ClientLogin(w: World, l: Login, email: string, masterKey: Bytes) {
    && l.clientId != "" && l.scope != "" && l.username != "" && l.authRequest == ""
    && NormalizeSalt(l.username) == email && l.password == w.std64(masterKey) && l.password != ""
    && Trim(l.deviceId) != ""
  }

  lemma DecodeStandard(w: World, masterKey: Bytes)
    requires Lawful(w)
    ensures DecodeKey(w, w.std64(masterKey)) == Some(masterKey)
  {
    TrimFixpoint(w.std64(masterKey));
    assert w.unstd64(w.std64(masterKey)) == Some(masterKey);
  }

  /** An active account whose hash is current for a master key admits a client on a new device. */
  lemma UnlockingKeyLogsIn(w: World, st: State, user: string, masterKey: Bytes, userKey: Bytes, l: Login)
    requires Lawful(w) && UniqueEmails(st.users) && Unlocks(w, st, user, masterKey, userKey) && st.users[user].active
    requires !st.accounts[user].twoFactor && ClientLogin(w, l, st.users[user].email, masterKey)
    requires Trim(l.deviceId) !in st.devices && Dead(w, st, l.token)
    ensures var reply := GrantByPassword(w, st, l).reply;
            reply.Granted? && reply.user == user && w.unwrap(masterKey, reply.key) == Some(userKey)
  {
    var salt := NormalizeSalt(st.users[user].email);
    EmailFinds(st.users, user, st.users[user].email);
    DecodeStandard(w, masterKey);
    assert w.verifyKey(masterKey, salt, w.hashKey(masterKey, salt));
    NewDeviceGrant(w, st, user, l);
    GrantKeysOfAccount(w, st, user, l);
  }

  lemma NewDeviceGrant(w: World, st: State, user: string, l: Login)
    requires user in st.accounts && !st.accounts[user].twoFactor && Trim(l.deviceId) != ""
             && Trim(l.deviceId) !in st.devices
    requires Dead(w, st, l.token)
    ensures GrantToUser(w, st, user, l).reply.Granted?
  {
    var devices := UpsertDevice(st.devices, user, l.deviceId).0;
    UpsertGains(st.devices, user, l.deviceId, w.hash(l.token));
    assert Dead(w, st.(devices := devices), l.token);
    RespondReply(w, st.(devices := devices), user, Trim(l.deviceId), l.token, "");
  }

  /** A created account is unlocked by the master key of its password, and has its private key sealed. */
  lemma CreatedUnlocks(w: World, st: State, r: Request)
    requires Lawful(w) && Valid(st) && r.CreateAccount? && WellSized(r.material) && Step(w, st, r).reply.Done?
    ensures var email, m, after := NormalizeSalt(r.email), r.material, Step(w, st, r).state;
            && Unlocks(w, after, r.id, w.kdf(r.password, NormalizeSalt(email)), m.userKey)
            && after.users[r.id] == User(email, true) && !after.accounts[r.id].twoFactor && after.devices == st.devices
            && after.accounts[r.id].privateKey == w.seal(m.userKey, m.keyIv, m.privateKey)
  {
    var added := st.(users := st.users[r.id := User(NormalizeSalt(r.email), true)]);
    assert !InUse(added, r.id);
    assert Step(w, st, r).state == ProvisionUser(w, added, r.id, r.password, r.material);
    ProvisionUnlocks(w, added, r.id, r.password, r.material);
  }

  /**
   The password an administrator hands out for a new account works in the clients: the master key derived
   from it logs in on a new device, and opens the user key and the private key.
   */
  lemma HandedOutPasswordLogsIn(w: World, st: State, r: Request, l: Login)
    requires Lawful(w) && Valid(st) && r.CreateAccount? && WellSized(r.material) && Step(w, st, r).reply.Done?
    requires var email := NormalizeSalt(r.email); ClientLogin(w, l, email, w.kdf(r.password, NormalizeSalt(email)))
    requires Trim(l.deviceId) !in st.devices && Dead(w, st, l.token)
    ensures var masterKey := w.kdf(r.password, NormalizeSalt(NormalizeSalt(r.email)));
            var reply := GrantByPassword(w, Step(w, st, r).state, l).reply;
            && reply.Granted? && reply.user == r.id
            && w.unwrap(masterKey, reply.key) == Some(r.material.userKey)
            && w.open(r.material.userKey, reply.privateKey) == Some(r.material.privateKey)
  {
    var m, after := r.material, Step(w, st, r).state;
    StepValid(w, st, r);
    CreatedUnlocks(w, st, r);
    UnlockingKeyLogsIn(w, after, r.id, w.kdf(r.password, NormalizeSalt(NormalizeSalt(r.email))), m.userKey, l);
    GrantKeysOfReply(w, after, l);
  }

  lemma GrantKeysOfReply(w: World, st: State, l: Login)
    requires GrantByPassword(w, st, l).reply.Granted?
    ensures var reply := GrantByPassword(w, st, l).reply;
            reply.user in st.accounts && reply.privateKey == st.accounts[reply.user].privateKey
  {
    var user := UserByEmail(st.users, NormalizeSalt(l.username)).value;
    assert GrantByPassword(w, st, l) == GrantToUser(w, st, user, l);
    GrantKeysOfAccount(w, st, user, l);
  }

  // ---- after a security-stamp reset -----------------------------------------------------------

  /**
   A panel password leaves a readable vault readable exactly when the account is in use at that moment. (The
   comment on ProvisionUser claims it for every account that has ever been used from a client.)
   */
  lemma PanelPasswordKeepsVaultExactlyWhenInUse(
      w: World, st: State, user: string, password: string, m: Material, userKey: Bytes)
    requires Lawful(w) && WellSized(m) && m.userKey != userKey && Readable(w, st, user, userKey)
    requires NoCollisionOfPassword(w, st, user, password, m)
    ensures Readable(w, Step(w, st, PanelPassword(user, password, m)).state, user, userKey) <==> InUse(st, user)
  {
    assert user in st.users;
    PanelPasswordProvisions(w, st, user, password, m);
    if !InUse(st, user) { ReplacedKeyUnreadable(w, st, user, password, m, userKey); }
  }

  lemma PanelPasswordProvisions(w: World, st: State, user: string, password: string, m: Material)
    requires user in st.users
    ensures Step(w, st, PanelPassword(user, password, m)).state == ProvisionUser(w, st, user, password, m)
    ensures InUse(st, user) ==> ProvisionUser(w, st, user, password, m) == st
  {
  }

  lemma ReplacedKeyUnreadable(w: World, st: State, user: string, password: string, m: Material, userKey: Bytes)
    requires Lawful(w) && WellSized(m) && m.userKey != userKey && NoCollisionOfPassword(w, st, user, password, m)
             && !InUse(st, user)
    ensures !Readable(w, ProvisionUser(w, st, user, password, m), user, userKey)
  {
    var after := ProvisionUser(w, st, user, password, m);
    ProvisionUnlocks(w, st, user, password, m);
    var masterKey := w.kdf(password, NormalizeSalt(st.users[user].email));
    ProvisionWrites(w, st, user, password, m);
    assert forall other :: Unlocks(w, after, user, other, userKey) ==> other == masterKey;
  }

  lemma StampDropsUse(w: World, st: State, user: string, hash: string, stamp: string)
    requires Step(w, st, SecurityStamp(user, hash, stamp)).reply.Done?
    ensures var after := Step(w, st, SecurityStamp(user, hash, stamp)).state;
            && !InUse(after, user) && after.users == st.users && after.ciphers == st.ciphers && user in after.accounts
            && after.accounts[user].passwordHash == st.accounts[user].passwordHash
            && after.accounts[user].userKey == st.accounts[user].userKey
  {
  }

  /**
   The claim fails after every security-stamp reset: a panel password that follows replaces the user key of a
   vault that was in use and readable, while its ciphers stay.
   */
  lemma StampThenPanelPasswordLosesVault(
      w: World, st: State, user: string, hash: string, stamp: string, password: string, m: Material, userKey: Bytes)
    requires Lawful(w) && WellSized(m) && m.userKey != userKey && NoCollisionOfPassword(w, st, user, password, m)
    requires Readable(w, st, user, userKey) && Step(w, st, SecurityStamp(user, hash, stamp)).reply.Done?
    ensures var reset := Step(w, st, SecurityStamp(user, hash, stamp)).state;
            var after := Step(w, reset, PanelPassword(user, password, m)).state;
            && Readable(w, reset, user, userKey) && !Readable(w, after, user, userKey)
            && after.ciphers == st.ciphers && exists masterKey :: Unlocks(w, after, user, masterKey, m.userKey)
  {
    var reset := Step(w, st, SecurityStamp(user, hash, stamp)).state;
    StampDropsUse(w, st, user, hash, stamp);
    StillReadable(w, st, reset, user, userKey);
    PanelPasswordKeepsVaultExactlyWhenInUse(w, reset, user, password, m, userKey);
    ReplacedBy(w, reset, user, password, m);
  }

  lemma StillReadable(w: World, st: State, after: State, user: string, userKey: Bytes)
    requires Readable(w, st, user, userKey) && user in after.accounts && user in st.accounts
    requires after.users == st.users && after.ciphers == st.ciphers
    requires after.accounts[user].passwordHash == st.accounts[user].passwordHash
    requires after.accounts[user].userKey == st.accounts[user].userKey
    ensures Readable(w, after, user, userKey)
  {
    var masterKey :| Unlocks(w, st, user, masterKey, userKey);
    assert Unlocks(w, after, user, masterKey, userKey);
  }

  lemma ReplacedBy(w: World, st: State, user: string, password: string, m: Material)
    requires Lawful(w) && WellSized(m) && user in st.users && !InUse(st, user)
    ensures var after := Step(w, st, PanelPassword(user, password, m)).state;
            after.ciphers == st.ciphers && exists masterKey :: Unlocks(w, after, user, masterKey, m.userKey)
  {
    ProvisionUnlocks(w, st, user, password, m);
    ProvisionWrites(w, st, user, password, m);
  }

  // ---- a vault in use -------------------------------------------------------------------------

  /** One account with its password, device and cipher. */
  datatype Profile = Profile(
    user: string, email: string, password: string, material: Material, device: string, cipher: string, iv: Bytes,
    plain: Bytes)

  predicate WellSizedProfile(a: Profile) { WellSized(a.material) && |a.iv| == IV_BYTES }

  function InUseState(w: World, a: Profile): State {
    ProvisionUser(
      w, State(map[a.user := User(a.email, true)], map[], map[a.device := Device(a.user, None, "")],
               map[a.cipher := CipherRow(a.user, w.seal(a.material.userKey, a.iv, a.plain))]),
      a.user, a.password, a.material)
  }

  lemma InUseIsReadable(w: World, a: Profile)
    requires Lawful(w) && WellSizedProfile(a)
    ensures var st := InUseState(w, a);
            && Readable(w, st, a.user, a.material.userKey) && InUse(st, a.user) && SignedIn(st, a.user)
            && st.users[a.user].email == a.email
            && st.accounts[a.user].passwordHash
               == w.hashKey(w.kdf(a.password, NormalizeSalt(a.email)), NormalizeSalt(a.email))
  {
    var st := InUseState(w, a);
    var start := st.(accounts := map[]);
    assert st == ProvisionUser(w, start, a.user, a.password, a.material);
    ProvisionUnlocks(w, start, a.user, a.password, a.material);
    assert a.device in st.devices && st.devices[a.device].user == a.user;
    assert w.unwrap(w.kdf(a.password, NormalizeSalt(a.email)), "") == None;
  }

  /** The stored hash, sent back, proves itself. */
  lemma StoredHashResetsStamp(w: World, st: State, user: string, stamp: string)
    requires SignedIn(st, user) && IsHashText(w, st.accounts[user].passwordHash)
    ensures Step(w, st, SecurityStamp(user, st.accounts[user].passwordHash, stamp)).reply.Done?
  {
    TrimFixpoint(st.accounts[user].passwordHash);
  }

  /** The states of a run: a vault in use, a security-stamp reset, another panel password. */
  ghost predicate IsLost(w: World, a: Profile, stamp: string, password: string, m: Material) {
    var st := InUseState(w, a);
    a.user in st.accounts && Readable(w, st, a.user, a.material.userKey)
    && var reset := Step(w, st, SecurityStamp(a.user, st.accounts[a.user].passwordHash, stamp));
       var after := Step(w, reset.state, PanelPassword(a.user, password, m)).state;
       reset.reply.Done? && after.ciphers == st.ciphers && !Readable(w, after, a.user, a.material.userKey)
  }

  /** From every account in use that run loses the vault. */
  lemma VaultIsLost(w: World, a: Profile, stamp: string, password: string, m: Material)
    requires Lawful(w) && WellSizedProfile(a) && WellSized(m) && m.userKey != a.material.userKey
    requires NoCollisionOfPassword(w, InUseState(w, a), a.user, password, m)
    ensures IsLost(w, a, stamp, password, m)
  {
    var st := InUseState(w, a);
    InUseIsReadable(w, a);
    assert IsHashText(w, st.accounts[a.user].passwordHash);
    StoredHashResetsStamp(w, st, a.user, stamp);
    StampThenPanelPasswordLosesVault(w, st, a.user, st.accounts[a.user].passwordHash, stamp, password, m,
                                     a.material.userKey);
  }
}
