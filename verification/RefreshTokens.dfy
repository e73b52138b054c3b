/** Refresh tokens over whole runs: each works once, on one device, and dies with the master password. */
module RefreshTokens {
  import opened Text
  import opened Bitwarden

  function IssuedToken(r: Request): Option<string> {
    match r
    case PasswordGrant(login) => Some(login.token)
    case RefreshGrant(_, newToken) => Some(newToken)
    case _ => None
  }

  predicate Issues(w: World, r: Request, h: string) {
    IssuedToken(r).Some? && w.hash(IssuedToken(r).value) == h
  }

  /** The random tokens of these requests do not have the hash of `token`. */
  ghost predicate NeverReissued(w: World, rs: seq<Request>, token: string) {
    forall i :: 0 <= i < |rs| ==> !Issues(w, rs[i], w.hash(token))
  }

  // ---- what one request does to the tokens ----------------------------------------------------

  /** Every device that holds the hash afterwards held it before, for the same user. */
  ghost predicate NothingGains(before: map<string, Device>, after: map<string, Device>, h: string) {
    forall d :: Holds(after, d, h) ==> Holds(before, d, h) && before[d].user == after[d].user
  }

  lemma GainsCompose(a: map<string, Device>, b: map<string, Device>, c: map<string, Device>, h: string)
    requires NothingGains(a, b, h) && NothingGains(b, c, h)
    ensures NothingGains(a, c, h)
  {
  }

  lemma UpsertGains(devices: map<string, Device>, user: string, identifier: string, h: string)
    ensures NothingGains(devices, UpsertDevice(devices, user, identifier).0, h)
  {
  }

  lemma CheckGains(w: World, account: Account, devices: map<string, Device>, user: string, l: Login, h: string)
    ensures var c := CheckTwoFactor(w, account, devices, user, l);
            c.Passed? ==> NothingGains(devices, c.devices, h) && c.devices.Keys == devices.Keys
  {
  }

  lemma RespondGains(w: World, st: State, user: string, device: string, token: string, remember: string, h: string)
    requires user in st.accounts && device in st.devices
    requires w.hash(token) != h || !Respond(w, st, user, device, token, remember).reply.Granted?
    ensures NothingGains(st.devices, Respond(w, st, user, device, token, remember).state.devices, h)
  {
  }

  lemma GrantGains(w: World, st: State, user: string, l: Login, h: string)
    requires user in st.accounts && (w.hash(l.token) != h || !GrantToUser(w, st, user, l).reply.Granted?)
    ensures NothingGains(st.devices, GrantToUser(w, st, user, l).state.devices, h)
  {
    var (devices, ok) := UpsertDevice(st.devices, user, l.deviceId);
    UpsertGains(st.devices, user, l.deviceId, h);
    if ok {
      if !st.accounts[user].twoFactor {
        RespondGains(w, st.(devices := devices), user, Trim(l.deviceId), l.token, "", h);
      } else {
        CheckGains(w, st.accounts[user], devices, user, l, h);
        var c := CheckTwoFactor(w, st.accounts[user], devices, user, l);
        if c.Passed? {
          GainsCompose(st.devices, devices, c.devices, h);
          RespondGains(w, st.(devices := c.devices), user, Trim(l.deviceId), l.token, c.rememberToken, h);
        }
      }
    }
  }

  predicate MayRefresh(st: State, user: string) {
    user in st.users && user in st.accounts && st.users[user].active
  }

  lemma PasswordGains(w: World, st: State, l: Login, h: string)
    requires w.hash(l.token) != h || !GrantByPassword(w, st, l).reply.Granted?
    ensures NothingGains(st.devices, GrantByPassword(w, st, l).state.devices, h)
  {
    var user := UserByEmail(st.users, NormalizeSalt(l.username));
    if user.Some? && user.value in st.accounts && GrantByPassword(w, st, l) == GrantToUser(w, st, user.value, l) {
      GrantGains(w, st, user.value, l, h);
    }
  }

  lemma RefreshGains(w: World, st: State, token: string, newToken: string, h: string)
    requires w.hash(newToken) != h || !GrantByRefresh(w, st, token, newToken).reply.Granted?
    ensures NothingGains(st.devices, GrantByRefresh(w, st, token, newToken).state.devices, h)
  {
    var device := Holder(st.devices, w.hash(token));
    if token != "" && device.Some? && MayRefresh(st, st.devices[device.value].user) {
      RespondGains(w, st, st.devices[device.value].user, device.value, newToken, "", h);
    }
  }

  lemma PanelGains(w: World, st: State, r: Request, h: string)
    requires FromPanel(r)
    ensures NothingGains(st.devices, ByPanel(w, st, r).state.devices, h)
  {
  }

  lemma ClientGains(w: World, st: State, user: string, r: Request, h: string)
    requires SignedIn(st, user)
    ensures NothingGains(st.devices, ByClient(w, st, user, r).state.devices, h)
  {
  }

  /** No request but a grant that issues the token makes a device hold its hash. */
  lemma StepGains(w: World, st: State, r: Request, h: string)
    requires !(Issues(w, r, h) && Step(w, st, r).reply.Granted?)
    ensures NothingGains(st.devices, Step(w, st, r).state.devices, h)
  {
    if FromPanel(r) {
      PanelGains(w, st, r, h);
    } else if r.PasswordGrant? {
      PasswordGains(w, st, r.login, h);
    } else if r.RefreshGrant? {
      RefreshGains(w, st, r.token, r.newToken, h);
    } else if SignedIn(st, r.user) {
      ClientGains(w, st, r.user, r, h);
    }
  }

  /** No device holds the token any more. */
  ghost predicate Dead(w: World, st: State, token: string) {
    forall d :: !Holds(st.devices, d, w.hash(token))
  }

  /** Only devices of the user may hold the token. */
  ghost predicate Belongs(w: World, st: State, token: string, user: string) {
    forall d :: Holds(st.devices, d, w.hash(token)) ==> st.devices[d].user == user
  }

  lemma {:induction false} DeadForever(w: World, st: State, rs: seq<Request>, token: string)
    requires NeverReissued(w, rs, token) && Dead(w, st, token)
    ensures Dead(w, Run(w, st, rs), token)
    decreases |rs|
  {
    if rs != [] {
      assert !Issues(w, rs[0], w.hash(token));
      StepGains(w, st, rs[0], w.hash(token));
      DeadForever(w, Step(w, st, rs[0]).state, rs[1..], token);
    }
  }

  lemma {:induction false} BelongsForever(w: World, st: State, rs: seq<Request>, token: string, user: string)
    requires NeverReissued(w, rs, token) && Belongs(w, st, token, user)
    ensures Belongs(w, Run(w, st, rs), token, user)
    decreases |rs|
  {
    if rs != [] {
      assert !Issues(w, rs[0], w.hash(token));
      StepGains(w, st, rs[0], w.hash(token));
      BelongsForever(w, Step(w, st, rs[0]).state, rs[1..], token, user);
    }
  }

  // ---- acceptance -----------------------------------------------------------------------------

  /** A refresh with this token is answered with a grant. */
  ghost predicate Accepts(w: World, st: State, token: string, newToken: string) {
    Step(w, st, RefreshGrant(token, newToken)).reply.Granted?
  }

  lemma DeadIsRefused(w: World, st: State, token: string, newToken: string)
    requires Dead(w, st, token)
    ensures Step(w, st, RefreshGrant(token, newToken)) == Outcome(st, GrantFailed)
  {
  }

  lemma HolderIs(devices: map<string, Device>, d: string, h: string)
    requires UniqueTokens(devices) && Holds(devices, d, h)
    ensures Holder(devices, h) == Some(d)
  {
  }

  lemma EmailFinds(users: map<string, User>, id: string, email: string)
    requires UniqueEmails(users) && HasEmail(users, id, email)
    ensures UserByEmail(users, email) == Some(id)
  {
    var found := UserByEmail(users, email).value;
    assert HasEmail(users, found, email);
  }

  /** With a fresh new token: accepted exactly when a device of an active account holds the token. */
  lemma AcceptedExactlyWhenLive(w: World, st: State, token: string, newToken: string)
    requires Valid(st) && Dead(w, st, newToken)
    ensures Accepts(w, st, token, newToken) <==>
            token != "" && exists d :: Holds(st.devices, d, w.hash(token))
                                       && st.devices[d].user in st.accounts && st.users[st.devices[d].user].active
  {
    var h := w.hash(token);
    if d :| Holds(st.devices, d, h) { HolderIs(st.devices, d, h); }
  }

  /** A grant leaves the new token at its device only, in place of the one the device held. */
  lemma GrantInstalls(w: World, st: State, r: Request)
    requires Valid(st) && Step(w, st, r).reply.Granted?
    ensures IssuedToken(r).Some?
    ensures var o := Step(w, st, r);
            && IssuedToken(r) == Some(o.reply.token)
            && Holds(o.state.devices, o.reply.device, w.hash(o.reply.token))
            && o.state.devices[o.reply.device].user == o.reply.user
            && (forall d :: Holds(o.state.devices, d, w.hash(o.reply.token)) ==> d == o.reply.device)
  {
    if r.PasswordGrant? {
      var user := UserByEmail(st.users, NormalizeSalt(r.login.username));
      PasswordGrantInstalls(w, st, user.value, r.login);
    } else {
      var device := Holder(st.devices, w.hash(r.token)).value;
      RespondInstalls(w, st, st.devices[device].user, device, r.newToken, "");
    }
  }

  lemma RespondInstalls(w: World, st: State, user: string, device: string, token: string, remember: string)
    requires user in st.accounts && device in st.devices && st.devices[device].user == user
    ensures var o := Respond(w, st, user, device, token, remember);
            o.reply.Granted? ==>
              && o.reply.token == token && o.reply.device == device && o.reply.user == user
              && Holds(o.state.devices, device, w.hash(token)) && o.state.devices[device].user == user
              && (forall d :: Holds(o.state.devices, d, w.hash(token)) ==> d == device)
  {
    var o := Respond(w, st, user, device, token, remember);
    if o.reply.Granted? {
      forall d | Holds(o.state.devices, d, w.hash(token)) ensures d == device {
        if d != device { assert Holds(st.devices, d, w.hash(token)); }
      }
    }
  }

  lemma PasswordGrantInstalls(w: World, st: State, user: string, l: Login)
    requires user in st.accounts && GrantToUser(w, st, user, l).reply.Granted?
    ensures var o := GrantToUser(w, st, user, l);
            && o.reply.token == l.token && o.reply.user == user && o.reply.device == Trim(l.deviceId)
            && Holds(o.state.devices, o.reply.device, w.hash(l.token)) && o.state.devices[o.reply.device].user == user
            && (forall d :: Holds(o.state.devices, d, w.hash(l.token)) ==> d == o.reply.device)
  {
    var (devices, ok) := UpsertDevice(st.devices, user, l.deviceId);
    var id := Trim(l.deviceId);
    if !st.accounts[user].twoFactor {
      RespondInstalls(w, st.(devices := devices), user, id, l.token, "");
    } else {
      var c := CheckTwoFactor(w, st.accounts[user], devices, user, l);
      RespondInstalls(w, st.(devices := c.devices), user, id, l.token, c.rememberToken);
    }
  }

  /** Refresh-token hashes stay UNIQUE. */
  lemma TokensStayUnique(w: World, st: State, r: Request)
    requires Valid(st)
    ensures UniqueTokens(Step(w, st, r).state.devices)
  {
    var o := Step(w, st, r);
    forall a, b, h | Holds(o.state.devices, a, h) && Holds(o.state.devices, b, h) ensures a == b {
      if Issues(w, r, h) && o.reply.Granted? {
        GrantInstalls(w, st, r);
      } else {
        StepGains(w, st, r, h);
      }
    }
  }

  /** The foreign keys and the unique e-mail. */
  ghost predicate RowsValid(st: State) {
    && (forall a :: a in st.accounts ==> a in st.users)
    && DevicesValid(st.users, st.devices)
    && CiphersValid(st.users, st.ciphers)
    && UniqueEmails(st.users)
  }

  ghost predicate DevicesValid(users: map<string, User>, devices: map<string, Device>) {
    forall d :: d in devices ==> devices[d].user in users
  }

  lemma RespondRows(w: World, st: State, user: string, device: string, token: string, remember: string)
    requires user in st.accounts && device in st.devices && DevicesValid(st.users, st.devices)
    ensures var after := Respond(w, st, user, device, token, remember).state;
            after == st.(devices := after.devices) && DevicesValid(st.users, after.devices)
  {
  }

  lemma GrantRows(w: World, st: State, user: string, l: Login)
    requires user in st.accounts && user in st.users && DevicesValid(st.users, st.devices)
    ensures var after := GrantToUser(w, st, user, l).state;
            after == st.(devices := after.devices) && DevicesValid(st.users, after.devices)
  {
    var (devices, ok) := UpsertDevice(st.devices, user, l.deviceId);
    if ok {
      if !st.accounts[user].twoFactor {
        RespondRows(w, st.(devices := devices), user, Trim(l.deviceId), l.token, "");
      } else {
        var c := CheckTwoFactor(w, st.accounts[user], devices, user, l);
        if c.Passed? { RespondRows(w, st.(devices := c.devices), user, Trim(l.deviceId), l.token, c.rememberToken); }
      }
    }
  }

  /** Provisioning writes one account row and nothing else. */
  lemma ProvisionWrites(w: World, st: State, user: string, password: string, m: Material)
    ensures var after := ProvisionUser(w, st, user, password, m);
            after == st || (user in st.users && user in after.accounts
                            && after == WithAccount(st, user, after.accounts[user]))
  {
  }

  lemma ProvisionRows(w: World, st: State, user: string, password: string, m: Material)
    requires RowsValid(st)
    ensures RowsValid(ProvisionUser(w, st, user, password, m))
  {
    ProvisionWrites(w, st, user, password, m);
  }

  lemma CreatedRows(w: World, st: State, r: Request)
    requires r.CreateAccount? && RowsValid(st)
    ensures RowsValid(Created(w, st, r).state)
  {
    var email := Lower(Trim(r.email));
    if r.id !in st.users && UserByEmail(st.users, email).None? {
      var added := st.(users := st.users[r.id := User(email, true)]);
      NewEmail(st.users, r.id, email);
      ProvisionRows(w, added, r.id, r.password, r.material);
    }
  }

  lemma NewEmail(users: map<string, User>, id: string, email: string)
    requires UniqueEmails(users) && id !in users && UserByEmail(users, email).None?
    ensures UniqueEmails(users[id := User(email, true)])
  {
    forall a | a in users ensures users[a].email != email {
      assert !HasEmail(users, a, email);
    }
  }

  lemma DeletedRows(st: State, user: string)
    requires RowsValid(st)
    ensures RowsValid(Deleted(st, user))
  {
  }

  lemma PanelRows(w: World, st: State, r: Request)
    requires RowsValid(st) && FromPanel(r)
    ensures RowsValid(ByPanel(w, st, r).state)
  {
    if r.CreateAccount? {
      CreatedRows(w, st, r);
    } else if r.PanelPassword? {
      ProvisionRows(w, st, r.user, r.password, r.material);
    } else if r.DeleteUser? {
      DeletedRows(st, r.user);
    }
  }

  lemma ClientKeepsKeys(w: World, st: State, user: string, r: Request)
    requires SignedIn(st, user)
    ensures var after := ByClient(w, st, user, r).state;
            after.users == st.users && after.accounts.Keys == st.accounts.Keys
  {
  }

  lemma ClientDevices(w: World, st: State, user: string, r: Request)
    requires SignedIn(st, user) && DevicesValid(st.users, st.devices)
    ensures DevicesValid(st.users, ByClient(w, st, user, r).state.devices)
  {
  }

  ghost predicate CiphersValid(users: map<string, User>, ciphers: map<string, CipherRow>) {
    forall c :: c in ciphers ==> ciphers[c].user in users
  }

  lemma {:induction false} ImportValid(
      users: map<string, User>, ciphers: map<string, CipherRow>, user: string, items: seq<Item>)
    requires CiphersValid(users, ciphers) && user in users
    ensures CiphersValid(users, CiphersImported(ciphers, user, items).0)
    decreases |items|
  {
    if items != [] && items[0].secret.Some? && items[0].cipher !in ciphers {
      ImportValid(users, ciphers[items[0].cipher := CipherRow(user, items[0].secret.value)], user, items[1..]);
    }
  }

  lemma ClientCiphers(w: World, st: State, user: string, r: Request)
    requires SignedIn(st, user) && CiphersValid(st.users, st.ciphers)
    ensures CiphersValid(st.users, ByClient(w, st, user, r).state.ciphers)
  {
    if r.ImportCiphers? { ImportValid(st.users, st.ciphers, user, r.items); }
  }

  lemma ClientRows(w: World, st: State, user: string, r: Request)
    requires RowsValid(st) && SignedIn(st, user)
    ensures RowsValid(ByClient(w, st, user, r).state)
  {
    ClientKeepsKeys(w, st, user, r);
    ClientDevices(w, st, user, r);
    ClientCiphers(w, st, user, r);
  }

  lemma StepRows(w: World, st: State, r: Request)
    requires RowsValid(st)
    ensures RowsValid(Step(w, st, r).state)
  {
    if FromPanel(r) {
      PanelRows(w, st, r);
    } else if r.PasswordGrant? {
      var user := UserByEmail(st.users, NormalizeSalt(r.login.username));
      if user.Some? && CanLogIn(st, user.value) { GrantRows(w, st, user.value, r.login); }
    } else if r.RefreshGrant? {
      var device := Holder(st.devices, w.hash(r.token));
      if device.Some? && MayRefresh(st, st.devices[device.value].user) {
        RespondRows(w, st, st.devices[device.value].user, device.value, r.newToken, "");
      }
    } else if SignedIn(st, r.user) {
      ClientRows(w, st, r.user, r);
    }
  }

  /** Every request keeps the keys of the tables. */
  lemma StepValid(w: World, st: State, r: Request)
    requires Valid(st)
    ensures Valid(Step(w, st, r).state)
  {
    TokensStayUnique(w, st, r);
    StepRows(w, st, r);
  }

  // ---- the chain ------------------------------------------------------------------------------

  /** The token a device held is dead once the device gets another one. */
  lemma ReplacedIsDead(w: World, st: State, r: Request, token: string)
    requires Valid(st)
    requires Step(w, st, r).reply.Granted? && !Issues(w, r, w.hash(token))
    requires Holds(st.devices, Step(w, st, r).reply.device, w.hash(token))
    ensures Dead(w, Step(w, st, r).state, token)
  {
    GrantInstalls(w, st, r);
    StepGains(w, st, r, w.hash(token));
  }

  lemma RefreshUsesHolder(w: World, st: State, token: string, newToken: string)
    requires Accepts(w, st, token, newToken)
    ensures Holds(st.devices, Step(w, st, RefreshGrant(token, newToken)).reply.device, w.hash(token))
  {
  }

  predicate Revokes(r: Request, user: string) {
    (r.ChangeMasterPassword? || r.SecurityStamp?) && r.user == user
  }

  /** The token's end: its device gets another token, its user revokes all tokens or is deleted. */
  ghost predicate Ends(w: World, st: State, r: Request, device: string) {
    var o := Step(w, st, r);
    || (o.reply.Granted? && o.reply.device == device)
    || (o.reply.Done? && device in st.devices
        && (Revokes(r, st.devices[device].user) || r == DeleteUser(st.devices[device].user)))
  }

  lemma RespondKeeps(
      w: World, st: State, user: string, device: string, token: string, remember: string, d: string, h: string)
    requires user in st.accounts && device in st.devices && Holds(st.devices, d, h)
    ensures var o := Respond(w, st, user, device, token, remember);
            && d in o.state.devices && o.state.devices[d].user == st.devices[d].user
            && (Holds(o.state.devices, d, h) <==> !(o.reply.Granted? && device == d && w.hash(token) != h))
            && (o.reply.Granted? ==> o.reply.device == device)
  {
  }

  /** The device still holds the hash, for the same user. */
  predicate StillHolds(before: map<string, Device>, after: map<string, Device>, d: string, h: string) {
    Holds(before, d, h) && Holds(after, d, h) && after[d].user == before[d].user
  }

  lemma UpsertKeeps(devices: map<string, Device>, user: string, identifier: string, d: string, h: string)
    requires Holds(devices, d, h)
    ensures StillHolds(devices, UpsertDevice(devices, user, identifier).0, d, h)
  {
  }

  lemma CheckKeeps(
      w: World, account: Account, devices: map<string, Device>, user: string, l: Login, d: string, h: string)
    requires Holds(devices, d, h)
    ensures var c := CheckTwoFactor(w, account, devices, user, l);
            c.Passed? ==> StillHolds(devices, c.devices, d, h) && c.devices.Keys == devices.Keys
  {
  }

  lemma GrantKeeps(w: World, st: State, user: string, l: Login, d: string, h: string)
    requires user in st.accounts && Holds(st.devices, d, h) && w.hash(l.token) != h
    ensures var o := GrantToUser(w, st, user, l);
            && d in o.state.devices && o.state.devices[d].user == st.devices[d].user
            && (Holds(o.state.devices, d, h) <==> !(o.reply.Granted? && o.reply.device == d))
  {
    var (devices, ok) := UpsertDevice(st.devices, user, l.deviceId);
    UpsertKeeps(st.devices, user, l.deviceId, d, h);
    if ok {
      if !st.accounts[user].twoFactor {
        RespondKeeps(w, st.(devices := devices), user, Trim(l.deviceId), l.token, "", d, h);
      } else {
        CheckKeeps(w, st.accounts[user], devices, user, l, d, h);
        var c := CheckTwoFactor(w, st.accounts[user], devices, user, l);
        if c.Passed? {
          RespondKeeps(w, st.(devices := c.devices), user, Trim(l.deviceId), l.token, c.rememberToken, d, h);
        }
      }
    }
  }

  lemma ClientEnds(w: World, st: State, user: string, r: Request, d: string, h: string)
    requires SignedIn(st, user) && Holds(st.devices, d, h)
    ensures var o := ByClient(w, st, user, r);
            Holds(o.state.devices, d, h) <==>
            !(o.reply.Done? && (r.ChangeMasterPassword? || r.SecurityStamp?) && user == st.devices[d].user)
  {
  }

  lemma PanelEnds(w: World, st: State, r: Request, d: string, h: string)
    requires FromPanel(r) && Holds(st.devices, d, h)
    ensures Holds(Step(w, st, r).state.devices, d, h)
            <==> !(Step(w, st, r).reply.Done? && r == DeleteUser(st.devices[d].user))
  {
  }

  lemma GrantEnds(w: World, st: State, r: Request, d: string, h: string)
    requires Holds(st.devices, d, h) && !Issues(w, r, h)
    requires r.PasswordGrant? || r.RefreshGrant?
    ensures var o := Step(w, st, r); Holds(o.state.devices, d, h) <==> !(o.reply.Granted? && o.reply.device == d)
  {
    if r.PasswordGrant? {
      var user := UserByEmail(st.users, NormalizeSalt(r.login.username));
      if user.Some? && CanLogIn(st, user.value) { GrantKeeps(w, st, user.value, r.login, d, h); }
    } else {
      var device := Holder(st.devices, w.hash(r.token));
      if device.Some? && MayRefresh(st, st.devices[device.value].user) {
        RespondKeeps(w, st, st.devices[device.value].user, device.value, r.newToken, "", d, h);
      }
    }
  }

  lemma PanelReply(w: World, st: State, r: Request)
    requires FromPanel(r)
    ensures ByPanel(w, st, r).reply.Done? || ByPanel(w, st, r).reply.Refused?
  {
  }

  lemma ClientReply(w: World, st: State, user: string, r: Request)
    requires SignedIn(st, user)
    ensures ByClient(w, st, user, r).reply.Done? || ByClient(w, st, user, r).reply.Refused?
  {
  }

  lemma UserReply(w: World, st: State, user: string, l: Login)
    requires user in st.accounts
    ensures !GrantToUser(w, st, user, l).reply.Done?
  {
  }

  lemma PasswordReply(w: World, st: State, l: Login)
    ensures !GrantByPassword(w, st, l).reply.Done?
  {
    var user := UserByEmail(st.users, NormalizeSalt(l.username));
    if user.Some? && user.value in st.accounts { UserReply(w, st, user.value, l); }
  }

  lemma RefreshReply(w: World, st: State, token: string, newToken: string)
    ensures !GrantByRefresh(w, st, token, newToken).reply.Done?
  {
  }

  lemma OnlyGrantsGrant(w: World, st: State, r: Request)
    ensures Step(w, st, r).reply.Granted? ==> r.PasswordGrant? || r.RefreshGrant?
    ensures (r.PasswordGrant? || r.RefreshGrant?) ==> !Step(w, st, r).reply.Done?
  {
    if FromPanel(r) {
      PanelReply(w, st, r);
    } else if r.PasswordGrant? {
      PasswordReply(w, st, r.login);
    } else if r.RefreshGrant? {
      RefreshReply(w, st, r.token, r.newToken);
    } else if SignedIn(st, r.user) {
      ClientReply(w, st, r.user, r);
    }
  }

  /** One request takes a live token away exactly in those cases. */
  lemma EndsExactlyThen(w: World, st: State, r: Request, d: string, h: string)
    requires Holds(st.devices, d, h) && !Issues(w, r, h)
    ensures Holds(Step(w, st, r).state.devices, d, h) <==> !Ends(w, st, r, d)
  {
    OnlyGrantsGrant(w, st, r);
    if r.PasswordGrant? || r.RefreshGrant? {
      GrantEnds(w, st, r, d, h);
    } else if FromPanel(r) {
      PanelEnds(w, st, r, d, h);
    } else if SignedIn(st, r.user) {
      ClientEnds(w, st, r.user, r, d, h);
    }
  }

  /** Some request of the run ends the token held at the device. */
  ghost predicate Ended(w: World, st: State, rs: seq<Request>, device: string)
    decreases |rs|
  {
    rs != [] && (Ends(w, st, rs[0], device) || Ended(w, Step(w, st, rs[0]).state, rs[1..], device))
  }

  /** A redeemed token is never accepted again, whatever happens next. */
  lemma RedeemedIsNeverAccepted(w: World, st: State, token: string, newToken: string, rs: seq<Request>, next: string)
    requires Valid(st) && Accepts(w, st, token, newToken) && w.hash(token) != w.hash(newToken)
    requires NeverReissued(w, rs, token)
    ensures !Accepts(w, Run(w, Step(w, st, RefreshGrant(token, newToken)).state, rs), token, next)
  {
    var r := RefreshGrant(token, newToken);
    RefreshUsesHolder(w, st, token, newToken);
    ReplacedIsDead(w, st, r, token);
    DeadForever(w, Step(w, st, r).state, rs, token);
    DeadIsRefused(w, Run(w, Step(w, st, r).state, rs), token, next);
  }

  /** A token that a later grant on the same device replaced is never accepted again. */
  lemma ReplacedIsNeverAccepted(w: World, st: State, r: Request, token: string, rs: seq<Request>, next: string)
    requires Valid(st)
    requires Step(w, st, r).reply.Granted? && !Issues(w, r, w.hash(token))
    requires Holds(st.devices, Step(w, st, r).reply.device, w.hash(token))
    requires NeverReissued(w, rs, token)
    ensures !Accepts(w, Run(w, Step(w, st, r).state, rs), token, next)
  {
    ReplacedIsDead(w, st, r, token);
    DeadForever(w, Step(w, st, r).state, rs, token);
    DeadIsRefused(w, Run(w, Step(w, st, r).state, rs), token, next);
  }

  lemma RevocationKills(w: World, st: State, r: Request, token: string, user: string)
    requires Revokes(r, user) && Step(w, st, r).reply.Done? && Belongs(w, st, token, user)
    ensures Dead(w, Step(w, st, r).state, token)
  {
  }

  /**
   A refresh token issued to a user before a master-password change or a security-stamp reset of that user is
   never accepted afterwards: any requests between grant and revocation, and any after it.
   */
  lemma NoEarlierTokenSurvives(
      w: World, st: State, grant: Request, between: seq<Request>, revocation: Request, later: seq<Request>,
      next: string)
    requires Valid(st)
    requires Step(w, st, grant).reply.Granted?
    requires var token, user := Step(w, st, grant).reply.token, Step(w, st, grant).reply.user;
             && NeverReissued(w, between, token)
             && Revokes(revocation, user) && Step(w, Run(w, Step(w, st, grant).state, between), revocation).reply.Done?
             && NeverReissued(w, later, token)
    ensures var revoked := Step(w, Run(w, Step(w, st, grant).state, between), revocation).state;
            !Accepts(w, Run(w, revoked, later), Step(w, st, grant).reply.token, next)
  {
    var granted := Step(w, st, grant);
    var token, user := granted.reply.token, granted.reply.user;
    GrantInstalls(w, st, grant);
    assert Belongs(w, granted.state, token, user);
    BelongsForever(w, granted.state, between, token, user);
    var before := Run(w, granted.state, between);
    RevocationKills(w, before, revocation, token, user);
    var revoked := Step(w, before, revocation).state;
    DeadForever(w, revoked, later, token);
    DeadIsRefused(w, Run(w, revoked, later), token, next);
  }

  /** A live token stays live through a run, and unused is accepted after it, exactly when no request ended it. */
  lemma {:induction false} LiveExactlyUntilEnded(w: World, st: State, rs: seq<Request>, device: string, token: string)
    requires Valid(st) && NeverReissued(w, rs, token)
    requires Holds(st.devices, device, w.hash(token))
    ensures if Ended(w, st, rs, device) then Dead(w, Run(w, st, rs), token)
            else Holds(Run(w, st, rs).devices, device, w.hash(token))
    decreases |rs|
  {
    if rs != [] {
      var r, h := rs[0], w.hash(token);
      assert !Issues(w, r, w.hash(token));
      var after := Step(w, st, r).state;
      EndsExactlyThen(w, st, r, device, h);
      StepGains(w, st, r, h);
      StepValid(w, st, r);
      if Ends(w, st, r, device) {
        DeadForever(w, after, rs[1..], token);
      } else {
        LiveExactlyUntilEnded(w, after, rs[1..], device, token);
      }
    }
  }
}
