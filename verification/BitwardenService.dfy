/** The handlers of internal/bitwarden as statements over their tables: each does what `Step` says. */
module BitwardenService {
  import opened Text
  import opened Bitwarden
  import opened RefreshTokens

  /** Accounts, devices and ciphers of everybody else, and all users, are as before. */
  ghost predicate OthersSame(before: State, after: State, user: string) {
    && after.users == before.users && after.accounts.Keys == before.accounts.Keys
    && (forall a :: a in before.accounts && a != user ==> after.accounts[a] == before.accounts[a])
    && DevicesSame(before.devices, after.devices, user) && CiphersSame(before.ciphers, after.ciphers, user)
  }

  ghost predicate DevicesSame(before: map<string, Device>, after: map<string, Device>, user: string) {
    && (forall d :: d in before && before[d].user != user ==> d in after && after[d] == before[d])
    && (forall d :: d in after ==> d in before && after[d].user == before[d].user)
  }

  ghost predicate CiphersSame(before: map<string, CipherRow>, after: map<string, CipherRow>, user: string) {
    && (forall c :: c in before && before[c].user != user ==> c in after && after[c] == before[c])
    && (forall c :: c in after && after[c].user != user ==> c in before)
  }

  class Service {
    const w: World
    var users: map<string, User>
    var accounts: map<string, Account>
    var devices: map<string, Device>
    var ciphers: map<string, CipherRow>

    function Tables(): State
      reads this
    {
      State(users, accounts, devices, ciphers)
    }

    constructor (w: World)
      ensures this.w == w && Tables() == State(map[], map[], map[], map[])
    {
      this.w := w;
      users, accounts, devices, ciphers := map[], map[], map[], map[];
    }

    /** SELECT ... WHERE u.email = $1. */
    method FindByEmail(email: string) returns (r: Option<string>)
      requires UniqueEmails(users)
      ensures r == UserByEmail(users, email)
    {
      var left := users.Keys;
      while left != {}
        invariant left <= users.Keys
        invariant forall id :: HasEmail(users, id, email) ==> id in left
        decreases |left|
      {
        var id :| id in left;
        if users[id].email == email {
          EmailFinds(users, id, email);
          return Some(id);
        }
        left := left - {id};
      }
      return None;
    }

    /** SELECT id ... WHERE refresh_token_hash = $1. */
    method FindHolder(hash: string) returns (r: Option<string>)
      requires UniqueTokens(devices)
      ensures r == Holder(devices, hash)
    {
      var left := devices.Keys;
      while left != {}
        invariant left <= devices.Keys
        invariant forall id :: Holds(devices, id, hash) ==> id in left
        decreases |left|
      {
        var id :| id in left;
        if devices[id].refresh == Some(hash) {
          HolderIs(devices, id, hash);
          return Some(id);
        }
        left := left - {id};
      }
      return None;
    }

    /** SELECT COUNT(*) ... WHERE user_id = $1, compared with 0. */
    method CountsDevices(user: string) returns (any: bool)
      ensures any == HasDevice(devices, user)
    {
      var left := devices.Keys;
      while left != {}
        invariant left <= devices.Keys
        invariant forall d :: d in devices && devices[d].user == user ==> d in left
        decreases |left|
      {
        var d :| d in left;
        if devices[d].user == user { return true; }
        left := left - {d};
      }
      return false;
    }

    // ---- panel --------------------------------------------------------------------------------

    method ProvisionAccount(user: string, password: string, m: Material)
      modifies this`accounts
      ensures Tables() == ProvisionUser(w, old(Tables()), user, password, m)
    {
      if user !in users { return; }
      if user in accounts && accounts[user].passwordHash != "" {
        var any := CountsDevices(user);
        if any { return; }
      }
      var salt := NormalizeSalt(users[user].email);
      var masterKey := w.kdf(password, salt);
      var passwordHash := w.hashKey(masterKey, salt);
      var wrapped := w.wrap(masterKey, m.wrapIv, m.userKey);
      var privateKey := w.seal(m.userKey, m.keyIv, m.privateKey);
      if user in accounts {
        var row := accounts[user];
        accounts := accounts[user := row.(passwordHash := passwordHash, userKey := wrapped, privateKey := privateKey,
                                          publicKey := m.publicKey, stamp := m.stamp)];
      } else {
        accounts := accounts[user := Account(passwordHash, wrapped, privateKey, m.publicKey, m.stamp, false, "")];
      }
    }

    method CreateAccount(id: string, email: string, password: string, m: Material) returns (reply: Reply)
      requires Valid(Tables())
      modifies this
      ensures Outcome(Tables(), reply) == Step(w, old(Tables()), Request.CreateAccount(id, email, password, m))
    {
      var address := Lower(Trim(email));
      if address == "" || '@' !in address { return Refused; }
      var taken := FindByEmail(address);
      if id in users || taken.Some? { return Refused; }
      users := users[id := User(address, true)];
      ProvisionAccount(id, password, m);
      return Done;
    }

    method PanelPassword(user: string, password: string, m: Material) returns (reply: Reply)
      modifies this
      ensures Outcome(Tables(), reply) == Step(w, old(Tables()), Request.PanelPassword(user, password, m))
    {
      if user !in users { return Refused; }
      ProvisionAccount(user, password, m);
      return Done;
    }

    // ---- grants -------------------------------------------------------------------------------

    /** INSERT ... ON CONFLICT (id) DO UPDATE, then the row read back under the user. */
    method RegisterDevice(user: string, identifier: string) returns (ok: bool)
      modifies this`devices
      ensures (devices, ok) == UpsertDevice(old(devices), user, identifier)
    {
      var id := Trim(identifier);
      if id == "" { return false; }
      if id !in devices { devices := devices[id := Device(user, None, "")]; }
      return devices[id].user == user;
    }

    method SecondFactor(user: string, l: Login) returns (check: Check)
      requires user in accounts
      modifies this`devices
      ensures check == CheckTwoFactor(w, old(accounts)[user], old(devices), user, l)
      ensures devices == if check.Passed? then check.devices else old(devices)
    {
      var account, code := accounts[user], Trim(l.code);
      var own := l.deviceId in devices && devices[l.deviceId].user == user;
      if l.provider == REMEMBERED {
        if !own || devices[l.deviceId].remember == "" || code == "" { return Prompt; }
        if devices[l.deviceId].remember == code { return Passed(devices, ""); }
        return Prompt;
      }
      if l.provider != 0 || code == "" || account.totpSecret == "" { return Prompt; }
      if !w.validTotp(account.totpSecret, code, l.now) { return Wrong; }
      if l.remember == "1" && own && l.deviceId != "" {
        devices := devices[l.deviceId := devices[l.deviceId].(remember := l.rememberToken)];
        return Passed(devices, l.rememberToken);
      }
      return Passed(devices, "");
    }

    /** UPDATE bitwarden_devices SET refresh_token_hash = $1: a hash used elsewhere is a unique violation. */
    method RespondToken(user: string, device: string, token: string, rememberToken: string) returns (reply: Reply)
      requires user in accounts && device in devices && UniqueTokens(devices)
      modifies this`devices
      ensures Outcome(Tables(), reply) == Respond(w, old(Tables()), user, device, token, rememberToken)
    {
      var h := w.hash(token);
      var holder := FindHolder(h);
      assert holder.Some? && holder.value != device <==> exists other :: Holds(devices, other, h) && other != device;
      if holder.Some? && holder.value != device { return TokenError; }
      devices := devices[device := devices[device].(refresh := Some(h))];
      return Granted(user, device, token, accounts[user].userKey, accounts[user].privateKey, rememberToken);
    }

    method TokenForUser(user: string, l: Login) returns (reply: Reply)
      requires user in accounts && UniqueTokens(devices)
      modifies this`devices
      ensures Outcome(Tables(), reply) == GrantToUser(w, old(Tables()), user, l)
    {
      ghost var before := devices;
      var ok := RegisterDevice(user, l.deviceId);
      if !ok { return DeviceError; }
      UniqueAfterUpsert(before, user, l.deviceId);
      if !accounts[user].twoFactor {
        reply := RespondToken(user, Trim(l.deviceId), l.token, "");
        return;
      }
      ghost var registered := devices;
      var check := SecondFactor(user, l);
      match check {
        case Prompt => return TwoFactorRequired;
        case Wrong => return TwoFactorInvalid;
        case Passed(_, rememberToken) =>
          UniqueAfterCheck(w, accounts[user], registered, user, l);
          reply := RespondToken(user, Trim(l.deviceId), l.token, rememberToken);
      }
    }

    method PasswordGrant(l: Login) returns (reply: Reply)
      requires Valid(Tables())
      modifies this`devices
      ensures Outcome(Tables(), reply) == Step(w, old(Tables()), Request.PasswordGrant(l))
      ensures GrantProved(w, old(Tables()), Outcome(Tables(), reply), l)
    {
      PasswordGrantKept(w, Tables(), l);
      if l.clientId == "" || l.password == "" || l.scope == "" || l.username == "" { return GrantFailed; }
      var found := FindByEmail(NormalizeSalt(l.username));
      if found.None? { return GrantFailed; }
      var user := found.value;
      if !CanLogIn(Tables(), user) || l.authRequest != "" { return GrantFailed; }
      var masterKey := DecodeKey(w, l.password);
      if masterKey.None? { return GrantFailed; }
      if !w.verifyKey(masterKey.value, NormalizeSalt(users[user].email), accounts[user].passwordHash) {
        return GrantFailed;
      }
      reply := TokenForUser(user, l);
    }

    method RefreshGrant(token: string, newToken: string) returns (reply: Reply)
      requires Valid(Tables())
      modifies this`devices
      ensures Outcome(Tables(), reply) == Step(w, old(Tables()), Request.RefreshGrant(token, newToken))
      ensures Valid(Tables())
      ensures reply.Granted? && w.hash(token) != w.hash(newToken) ==> Dead(w, Tables(), token)
    {
      RefreshGrantKept(w, Tables(), token, newToken);
      if token == "" { return GrantFailed; }
      var holder := FindHolder(w.hash(token));
      if holder.None? { return GrantFailed; }
      var user := devices[holder.value].user;
      if user !in users || user !in accounts || !users[user].active { return GrantFailed; }
      reply := RespondToken(user, holder.value, newToken, "");
    }

    // ---- account requests ---------------------------------------------------------------------

    method ChangeMasterPassword(user: string, hash: string, newHash: string, newKey: string, stamp: string)
      returns (reply: Reply)
      modifies this
      ensures Outcome(Tables(), reply)
              == Step(w, old(Tables()), Request.ChangeMasterPassword(user, hash, newHash, newKey, stamp))
      ensures OthersSame(old(Tables()), Tables(), user)
    {
      if !SignedIn(Tables(), user) { return Refused; }
      if !VerifyProvidedHash(w, accounts[user], hash) || newHash == "" || newKey == "" { return Refused; }
      accounts := accounts[user := accounts[user].(passwordHash := newHash, userKey := newKey, stamp := stamp)];
      devices := TokensCleared(devices, user);
      return Done;
    }

    method PostKeys(user: string, privateKey: string, publicKey: string) returns (reply: Reply)
      modifies this
      ensures Outcome(Tables(), reply) == Step(w, old(Tables()), Request.PostKeys(user, privateKey, publicKey))
      ensures OthersSame(old(Tables()), Tables(), user)
    {
      if !SignedIn(Tables(), user) { return Refused; }
      if accounts[user].privateKey != "" || privateKey == "" || publicKey == "" { return Refused; }
      accounts := accounts[user := accounts[user].(privateKey := privateKey, publicKey := publicKey)];
      return Done;
    }

    method SecurityStamp(user: string, hash: string, stamp: string) returns (reply: Reply)
      modifies this
      ensures Outcome(Tables(), reply) == Step(w, old(Tables()), Request.SecurityStamp(user, hash, stamp))
      ensures OthersSame(old(Tables()), Tables(), user)
    {
      if !SignedIn(Tables(), user) { return Refused; }
      if !VerifyProvidedHash(w, accounts[user], hash) { return Refused; }
      accounts := accounts[user := accounts[user].(stamp := stamp)];
      devices := DevicesDropped(devices, user);
      return Done;
    }

    /** The last loop of handleImportCiphers: the first bad cipher ends it, and those before it stay. */
    method ImportCiphers(user: string, items: seq<Item>) returns (reply: Reply)
      modifies this`ciphers
      ensures Outcome(Tables(), reply) == Step(w, old(Tables()), Request.ImportCiphers(user, items))
      ensures OthersSame(old(Tables()), Tables(), user)
    {
      if !SignedIn(Tables(), user) { return Refused; }
      for i := 0 to |items|
        invariant CiphersSame(old(ciphers), ciphers, user) && forall c :: c in old(ciphers) ==> c in ciphers
        invariant CiphersImported(ciphers, user, items[i..]) == CiphersImported(old(ciphers), user, items)
      {
        assert items[i..][0] == items[i] && items[i..][1..] == items[i + 1..];
        if items[i].secret.None? || items[i].cipher in ciphers { return Refused; }
        ciphers := ciphers[items[i].cipher := CipherRow(user, items[i].secret.value)];
      }
      return Done;
    }
  }

  /** The keys of the tables hold; a grant follows a proved master key and leaves its token at one device. */
  ghost predicate GrantProved(w: World, before: State, o: Outcome, l: Login) {
    && Valid(o.state)
    && (o.reply.Granted? ==>
          && o.reply.user in before.accounts && o.reply.user in before.users
          && Authentic(w, before, o.reply.user, l.password) && Holds(o.state.devices, o.reply.device, w.hash(l.token)))
  }

  lemma PasswordGrantKept(w: World, st: State, l: Login)
    requires Valid(st)
    ensures GrantProved(w, st, Step(w, st, PasswordGrant(l)), l)
  {
    var r := PasswordGrant(l);
    StepValid(w, st, r);
    if Step(w, st, r).reply.Granted? {
      GrantInstalls(w, st, r);
      PasswordGrantInstalls(w, st, UserByEmail(st.users, NormalizeSalt(l.username)).value, l);
    }
  }

  /** After a refresh the token that was redeemed is held by no device. */
  lemma RefreshGrantKept(w: World, st: State, token: string, newToken: string)
    requires Valid(st)
    ensures var o := Step(w, st, RefreshGrant(token, newToken));
            Valid(o.state) && (o.reply.Granted? && w.hash(token) != w.hash(newToken) ==> Dead(w, o.state, token))
  {
    var r := RefreshGrant(token, newToken);
    StepValid(w, st, r);
    if Accepts(w, st, token, newToken) && w.hash(token) != w.hash(newToken) {
      RefreshUsesHolder(w, st, token, newToken);
      ReplacedIsDead(w, st, r, token);
    }
  }

  lemma UniqueAfterUpsert(devices: map<string, Device>, user: string, identifier: string)
    requires UniqueTokens(devices)
    ensures UniqueTokens(UpsertDevice(devices, user, identifier).0)
  {
    var after := UpsertDevice(devices, user, identifier).0;
    forall a, b, h | Holds(after, a, h) && Holds(after, b, h) ensures a == b {
      UpsertGains(devices, user, identifier, h);
    }
  }

  lemma UniqueAfterCheck(w: World, account: Account, devices: map<string, Device>, user: string, l: Login)
    requires UniqueTokens(devices)
    ensures var c := CheckTwoFactor(w, account, devices, user, l); c.Passed? ==> UniqueTokens(c.devices)
  {
    var c := CheckTwoFactor(w, account, devices, user, l);
    if c.Passed? {
      forall a, b, h | Holds(c.devices, a, h) && Holds(c.devices, b, h) ensures a == b {
        CheckGains(w, account, devices, user, l, h);
      }
    }
  }
}
