/**
 What each answer to a login means (passwordGrant, checkTwoFactor, respondToken and refreshGrant of
 internal/bitwarden/identity.go), read off the rows before the request and the rows after it.
 */
module Grants {
  import opened Text
  import opened Bytes
  import opened Bitwarden
  import R = RefreshTokens

  // ---- what a login proves --------------------------------------------------------------------

  /** The password field holds the key in standard base64, failing that in unpadded, failing that in URL base64. */
  predicate Carries(w: World, password: string, key: Bytes) {
    var text := Trim(password);
    || w.unstd64(text) == Some(key)
    || (w.unstd64(text).None? && w.rawStd64(text) == Some(key))
    || (w.unstd64(text).None? && w.rawStd64(text).None? && w.rawUrl64(text) == Some(key))
  }

  /** The form is complete and names an active, provisioned account. */
  predicate Names(st: State, l: Login, user: string) {
    && l.clientId != "" && l.password != "" && l.scope != "" && l.username != "" && l.authRequest == ""
    && user in st.users && st.users[user].email == Lower(Trim(l.username)) && st.users[user].active
    && user in st.accounts && st.accounts[user].passwordHash != "" && st.accounts[user].userKey != ""
  }

  /** And its master key verifies. */
  ghost predicate Proves(w: World, st: State, l: Login, user: string) {
    && Names(st, l, user)
    && exists key :: Carries(w, l.password, key)
                     && w.verifyKey(key, Lower(Trim(st.users[user].email)), st.accounts[user].passwordHash)
  }

  /** The device id is not blank, and not somebody else's. */
  predicate DeviceFree(st: State, l: Login, user: string) {
    Trim(l.deviceId) != "" && (Trim(l.deviceId) in st.devices ==> st.devices[Trim(l.deviceId)].user == user)
  }

  /** A code is looked at: provider 0, a code, and a secret to check it with. */
  predicate GivesCode(st: State, l: Login, user: string)
    requires user in st.accounts
  {
    l.provider == 0 && Trim(l.code) != "" && st.accounts[user].totpSecret != ""
  }

  predicate CodeValid(w: World, st: State, l: Login, user: string)
    requires user in st.accounts
  {
    w.validTotp(st.accounts[user].totpSecret, Trim(l.code), l.now)
  }

  /** Provider -2: a device that was the user's before the login remembers the text. */
  predicate ShowsRemembered(st: State, l: Login, user: string) {
    && l.provider == -2 && Trim(l.code) != ""
    && l.deviceId in st.devices && st.devices[l.deviceId].user == user
    && st.devices[l.deviceId].remember == Trim(l.code)
  }

  /** The second step is not asked for, or taken. */
  predicate SecondStep(w: World, st: State, l: Login, user: string)
    requires user in st.accounts
  {
    st.accounts[user].twoFactor ==>
      (GivesCode(st, l, user) && CodeValid(w, st, l, user)) || ShowsRemembered(st, l, user)
  }

  /** No device but this one holds the new token. */
  ghost predicate TokenFree(w: World, st: State, token: string, device: string) {
    forall d :: d in st.devices && st.devices[d].refresh == Some(w.hash(token)) ==> d == device
  }

  // ---- from the request to these --------------------------------------------------------------

  lemma CarriesIsDecoded(w: World, password: string, key: Bytes)
    ensures Carries(w, password, key) <==> DecodeKey(w, password) == Some(key)
  {
  }

  lemma ProvesMeans(w: World, st: State, l: Login, user: string)
    requires Valid(st)
    ensures Proves(w, st, l, user) ==>
              && UserByEmail(st.users, NormalizeSalt(l.username)) == Some(user)
              && GrantByPassword(w, st, l) == GrantToUser(w, st, user, l)
  {
    if Proves(w, st, l, user) {
      R.EmailFinds(st.users, user, Lower(Trim(l.username)));
      var key :| Carries(w, l.password, key)
        && w.verifyKey(key, Lower(Trim(st.users[user].email)), st.accounts[user].passwordHash);
      CarriesIsDecoded(w, l.password, key);
    }
  }

  lemma UnprovedFails(w: World, st: State, l: Login)
    requires forall user :: !Proves(w, st, l, user)
    ensures GrantByPassword(w, st, l) == Outcome(st, GrantFailed)
  {
    var found := UserByEmail(st.users, NormalizeSalt(l.username));
    if found.Some? && CanLogIn(st, found.value) && Authentic(w, st, found.value, l.password) {
      CarriesIsDecoded(w, l.password, DecodeKey(w, l.password).value);
      assert !Proves(w, st, l, found.value);
    }
  }

  lemma CheckMeans(w: World, st: State, user: string, l: Login)
    requires user in st.accounts && DeviceFree(st, l, user)
    ensures var devices := UpsertDevice(st.devices, user, l.deviceId).0;
            var check := CheckTwoFactor(w, st.accounts[user], devices, user, l);
            && (check.Wrong? <==> GivesCode(st, l, user) && !CodeValid(w, st, l, user))
            && (check.Passed? <==>
                  (GivesCode(st, l, user) && CodeValid(w, st, l, user)) || ShowsRemembered(st, l, user))
  {
  }

  lemma RegisteredFree(w: World, st: State, user: string, l: Login, device: string)
    requires DeviceFree(st, l, user)
    ensures TokenFree(w, st.(devices := UpsertDevice(st.devices, user, l.deviceId).0), l.token, device)
            <==> TokenFree(w, st, l.token, device)
  {
    var devices := UpsertDevice(st.devices, user, l.deviceId).0;
    assert forall d :: d in st.devices ==> d in devices && devices[d] == st.devices[d];
  }

  lemma CheckedFree(w: World, st: State, user: string, l: Login, device: string)
    requires user in st.accounts
    ensures var check := CheckTwoFactor(w, st.accounts[user], st.devices, user, l);
            check.Passed? ==>
              (TokenFree(w, st.(devices := check.devices), l.token, device) <==> TokenFree(w, st, l.token, device))
  {
    var check := CheckTwoFactor(w, st.accounts[user], st.devices, user, l);
    if check.Passed? {
      assert check.devices.Keys == st.devices.Keys;
      assert forall d :: d in st.devices ==> check.devices[d].refresh == st.devices[d].refresh;
    }
  }

  lemma RespondMeans(w: World, st: State, user: string, device: string, token: string, remember: string)
    requires user in st.accounts && device in st.devices
    ensures var reply := Respond(w, st, user, device, token, remember).reply;
            reply == if TokenFree(w, st, token, device) then
                       Granted(user, device, token, st.accounts[user].userKey, st.accounts[user].privateKey, remember)
                     else TokenError
  {
    if exists other :: Holds(st.devices, other, w.hash(token)) && other != device {
    } else {
      forall d | d in st.devices && st.devices[d].refresh == Some(w.hash(token)) ensures d == device {
        assert Holds(st.devices, d, w.hash(token));
      }
    }
  }

  // ---- the answers ----------------------------------------------------------------------------

  /** The remember token that a granted login hands out: only with a right code, for a device the user then has. */
  function Remembering(st: State, l: Login, user: string): string
    requires user in st.accounts
  {
    if st.accounts[user].twoFactor && l.provider == 0 && l.remember == "1" && l.deviceId != ""
       && ((l.deviceId in st.devices && st.devices[l.deviceId].user == user) || l.deviceId == Trim(l.deviceId))
    then l.rememberToken else ""
  }

  /** The reply to a login whose master key verifies. */
  ghost function ProvedReply(w: World, st: State, l: Login, user: string): Reply
    requires user in st.accounts
  {
    var device, account := Trim(l.deviceId), st.accounts[user];
    if !DeviceFree(st, l, user) then DeviceError
    else if !SecondStep(w, st, l, user) then (if GivesCode(st, l, user) then TwoFactorInvalid else TwoFactorRequired)
    else if !TokenFree(w, st, l.token, device) then TokenError
    else Granted(user, device, l.token, account.userKey, account.privateKey, Remembering(st, l, user))
  }

  lemma UserReply(w: World, st: State, user: string, l: Login)
    requires user in st.accounts
    ensures GrantToUser(w, st, user, l).reply == ProvedReply(w, st, l, user)
  {
    var (devices, ok) := UpsertDevice(st.devices, user, l.deviceId);
    var registered, device := st.(devices := devices), Trim(l.deviceId);
    assert ok <==> DeviceFree(st, l, user);
    if ok {
      RegisteredFree(w, st, user, l, device);
      if !st.accounts[user].twoFactor {
        RespondMeans(w, registered, user, device, l.token, "");
      } else {
        CheckMeans(w, st, user, l);
        var check := CheckTwoFactor(w, st.accounts[user], devices, user, l);
        if check.Passed? {
          CheckedFree(w, registered, user, l, device);
          RespondMeans(w, st.(devices := check.devices), user, device, l.token, check.rememberToken);
        }
      }
    }
  }

  // Where a login whose master key verifies ends; the one that gets in passes all the others.
  ghost predicate DeviceTaken(w: World, st: State, l: Login, user: string) {
    Proves(w, st, l, user) && !DeviceFree(st, l, user)
  }

  ghost predicate CodeWrong(w: World, st: State, l: Login, user: string) {
    && Proves(w, st, l, user) && DeviceFree(st, l, user) && st.accounts[user].twoFactor
    && GivesCode(st, l, user) && !CodeValid(w, st, l, user)
  }

  ghost predicate CodeMissing(w: World, st: State, l: Login, user: string) {
    && Proves(w, st, l, user) && DeviceFree(st, l, user) && st.accounts[user].twoFactor
    && !GivesCode(st, l, user) && !ShowsRemembered(st, l, user)
  }

  ghost predicate TokenTaken(w: World, st: State, l: Login, user: string) {
    && Proves(w, st, l, user) && DeviceFree(st, l, user) && SecondStep(w, st, l, user)
    && !TokenFree(w, st, l.token, Trim(l.deviceId))
  }

  ghost predicate GetsIn(w: World, st: State, l: Login, user: string) {
    && Proves(w, st, l, user) && DeviceFree(st, l, user) && SecondStep(w, st, l, user)
    && TokenFree(w, st, l.token, Trim(l.deviceId))
  }

  /**
   Exactly when a login gets which answer, for every state, form, clock and token. In particular an account with the
   second factor on lets in nobody without a code that is valid now or a device that remembers the login.
   */
  lemma PasswordGrantAnswers(w: World, st: State, l: Login)
    requires Valid(st)
    ensures var reply := Step(w, st, PasswordGrant(l)).reply;
            && (reply.Granted? <==> exists user :: GetsIn(w, st, l, user))
            && (reply.TwoFactorInvalid? <==> exists user :: CodeWrong(w, st, l, user))
            && (reply.TwoFactorRequired? <==> exists user :: CodeMissing(w, st, l, user))
            && (reply.DeviceError? <==> exists user :: DeviceTaken(w, st, l, user))
            && (reply.TokenError? <==> exists user :: TokenTaken(w, st, l, user))
            && (reply.GrantFailed? <==> !exists user :: Proves(w, st, l, user))
  {
    if user :| Proves(w, st, l, user) {
      ProvedAlone(w, st, l, user);
      ProvedAnswer(w, st, l, user);
    } else {
      UnprovedFails(w, st, l);
    }
  }

  lemma ProvedAnswer(w: World, st: State, l: Login, user: string)
    requires Valid(st) && Proves(w, st, l, user)
    ensures var reply := Step(w, st, PasswordGrant(l)).reply;
            && (reply.Granted? <==> GetsIn(w, st, l, user))
            && (reply.TwoFactorInvalid? <==> CodeWrong(w, st, l, user))
            && (reply.TwoFactorRequired? <==> CodeMissing(w, st, l, user))
            && (reply.DeviceError? <==> DeviceTaken(w, st, l, user))
            && (reply.TokenError? <==> TokenTaken(w, st, l, user))
            && !reply.GrantFailed?
  {
    ProvesMeans(w, st, l, user);
    UserReply(w, st, user, l);
  }

  lemma ProvedAlone(w: World, st: State, l: Login, user: string)
    requires Valid(st) && Proves(w, st, l, user)
    ensures forall other :: Proves(w, st, l, other) ==> other == user
  {
  }

  /** A granted login hands out the account's own keys, its own new token, and a remember token only if asked for. */
  lemma GrantedReply(w: World, st: State, l: Login, user: string)
    requires Valid(st) && GetsIn(w, st, l, user)
    ensures Step(w, st, PasswordGrant(l)).reply
            == Granted(user, Trim(l.deviceId), l.token, st.accounts[user].userKey, st.accounts[user].privateKey,
                       Remembering(st, l, user))
  {
    ProvesMeans(w, st, l, user);
    UserReply(w, st, user, l);
  }

  // ---- the rows afterwards --------------------------------------------------------------------

  /** The login stores its remember token at the device it names. */
  predicate Stores(w: World, st: State, l: Login, user: string)
    requires user in st.accounts
  {
    && DeviceFree(st, l, user) && st.accounts[user].twoFactor && GivesCode(st, l, user) && CodeValid(w, st, l, user)
    && l.remember == "1" && l.deviceId != ""
    && ((l.deviceId in st.devices && st.devices[l.deviceId].user == user) || l.deviceId == Trim(l.deviceId))
  }

  /** A device row after a login of `user` whose master key verified, granted or not. */
  function DeviceAfter(w: World, st: State, l: Login, user: string, granted: bool, d: string): Device
    requires user in st.accounts
  {
    var prior := if d in st.devices then st.devices[d] else Device(user, None, "");
    Device(prior.user,
           if granted && d == Trim(l.deviceId) then Some(w.hash(l.token)) else prior.refresh,
           if Stores(w, st, l, user) && d == l.deviceId then l.rememberToken else prior.remember)
  }

  ghost predicate DevicesAfter(
      w: World, st: State, l: Login, user: string, granted: bool, after: map<string, Device>)
    requires user in st.accounts
  {
    && (forall d :: d in after <==> d in st.devices || (d == Trim(l.deviceId) && d != ""))
    && (forall d :: d in after ==> after[d] == DeviceAfter(w, st, l, user, granted, d))
  }

  lemma UserRows(w: World, st: State, user: string, l: Login)
    requires user in st.accounts
    ensures var o := GrantToUser(w, st, user, l);
            o.state == st.(devices := o.state.devices)
            && DevicesAfter(w, st, l, user, o.reply.Granted?, o.state.devices)
  {
    var (devices, ok) := UpsertDevice(st.devices, user, l.deviceId);
    var check := CheckTwoFactor(w, st.accounts[user], devices, user, l);
    RegisteredRows(w, st, user, l);
    if ok && !st.accounts[user].twoFactor {
      AnsweredRows(w, st, user, l, devices, "");
    } else if ok && check.Passed? {
      CheckRows(w, st, user, l);
      AnsweredRows(w, st, user, l, check.devices, check.rememberToken);
    }
  }

  lemma RegisteredRows(w: World, st: State, user: string, l: Login)
    requires user in st.accounts
    ensures var (devices, ok) := UpsertDevice(st.devices, user, l.deviceId);
            && (ok <==> DeviceFree(st, l, user))
            && (!(ok && st.accounts[user].twoFactor && CheckTwoFactor(w, st.accounts[user], devices, user, l).Passed?)
                ==> DevicesAfter(w, st, l, user, false, devices))
  {
  }

  lemma AnsweredRows(
      w: World, st: State, user: string, l: Login, devices: map<string, Device>, remember: string)
    requires user in st.accounts && Trim(l.deviceId) in devices && DevicesAfter(w, st, l, user, false, devices)
    ensures var o := Respond(w, st.(devices := devices), user, Trim(l.deviceId), l.token, remember);
            o.state == st.(devices := o.state.devices)
            && DevicesAfter(w, st, l, user, o.reply.Granted?, o.state.devices)
  {
    RespondRows(w, st.(devices := devices), user, Trim(l.deviceId), l.token, remember);
  }

  lemma RespondRows(w: World, st: State, user: string, device: string, token: string, remember: string)
    requires user in st.accounts && device in st.devices
    ensures var o := Respond(w, st, user, device, token, remember);
            && o.state == st.(devices := o.state.devices) && o.state.devices.Keys == st.devices.Keys
            && forall d :: d in st.devices ==>
                 o.state.devices[d]
                 == if o.reply.Granted? && d == device then st.devices[d].(refresh := Some(w.hash(token)))
                    else st.devices[d]
  {
  }

  lemma CheckRows(w: World, st: State, user: string, l: Login)
    requires user in st.accounts && DeviceFree(st, l, user) && st.accounts[user].twoFactor
    ensures var devices := UpsertDevice(st.devices, user, l.deviceId).0;
            var check := CheckTwoFactor(w, st.accounts[user], devices, user, l);
            check.Passed? ==> DevicesAfter(w, st, l, user, false, check.devices) && Trim(l.deviceId) in check.devices
  {
    CheckStores(w, st, user, l);
    UpsertRows(st, user, l);
  }

  lemma UpsertRows(st: State, user: string, l: Login)
    ensures var devices := UpsertDevice(st.devices, user, l.deviceId).0;
            && (forall d :: d in devices <==> d in st.devices || (d == Trim(l.deviceId) && d != ""))
            && forall d :: d in devices ==>
                 devices[d] == if d in st.devices then st.devices[d] else Device(user, None, "")
  {
  }

  lemma CheckStores(w: World, st: State, user: string, l: Login)
    requires user in st.accounts && DeviceFree(st, l, user) && st.accounts[user].twoFactor
    ensures var devices := UpsertDevice(st.devices, user, l.deviceId).0;
            var check := CheckTwoFactor(w, st.accounts[user], devices, user, l);
            && (Stores(w, st, l, user) ==> l.deviceId in devices)
            && (check.Passed? ==>
                  check.devices == if Stores(w, st, l, user) then
                                     devices[l.deviceId := devices[l.deviceId].(remember := l.rememberToken)]
                                   else devices)
  {
  }

  /**
   A login writes devices only, and of them at most the one it names: its row is added if it is new, keeps its user,
   gets the new token exactly when the login is granted, and the remember token exactly when a right code asks for it.
   */
  lemma PasswordGrantRows(w: World, st: State, l: Login)
    requires Valid(st)
    ensures var o := Step(w, st, PasswordGrant(l));
            && o.state == st.(devices := o.state.devices)
            && (forall user :: Proves(w, st, l, user) ==>
                  DevicesAfter(w, st, l, user, o.reply.Granted?, o.state.devices))
            && ((forall user :: !Proves(w, st, l, user)) ==> o.state == st)
  {
    if user :| Proves(w, st, l, user) {
      ProvedAlone(w, st, l, user);
      ProvesMeans(w, st, l, user);
      UserRows(w, st, user, l);
    } else {
      UnprovedFails(w, st, l);
    }
  }

  // ---- refreshing -----------------------------------------------------------------------------

  /** The device that holds the token, of an active account. */
  ghost predicate Redeems(w: World, st: State, token: string, device: string) {
    && token != "" && device in st.devices && st.devices[device].refresh == Some(w.hash(token))
    && st.devices[device].user in st.users && st.devices[device].user in st.accounts
    && st.users[st.devices[device].user].active
  }

  /**
   A refresh is granted exactly for a token that a device of an active account holds, as long as no other device
   holds the new one; it answers with that account's keys, and changes nothing but that device's token.
   */
  lemma RefreshGrantAnswers(w: World, st: State, token: string, newToken: string)
    requires Valid(st)
    ensures var o := Step(w, st, RefreshGrant(token, newToken));
            && (o.reply.Granted? <==>
                exists device :: Redeems(w, st, token, device) && TokenFree(w, st, newToken, device))
            && (!o.reply.Granted? ==> o.state == st && (o.reply.TokenError? || o.reply.GrantFailed?))
            && (o.reply.GrantFailed? <==> !exists device :: Redeems(w, st, token, device))
    ensures forall device :: Redeems(w, st, token, device) && TokenFree(w, st, newToken, device) ==>
              RefreshedAt(w, st, newToken, device, Step(w, st, RefreshGrant(token, newToken)))
  {
    if device :| Redeems(w, st, token, device) {
      assert Holds(st.devices, device, w.hash(token));
      R.HolderIs(st.devices, device, w.hash(token));
      assert forall other :: Redeems(w, st, token, other) ==> Holds(st.devices, other, w.hash(token));
      RespondMeans(w, st, st.devices[device].user, device, newToken, "");
    } else {
      var found := Holder(st.devices, w.hash(token));
      if found.Some? { assert !Redeems(w, st, token, found.value); }
    }
  }

  ghost predicate RefreshedAt(w: World, st: State, newToken: string, device: string, o: Outcome)
    requires device in st.devices && st.devices[device].user in st.accounts
  {
    var user := st.devices[device].user;
    && o.reply == Granted(user, device, newToken, st.accounts[user].userKey, st.accounts[user].privateKey, "")
    && o.state.users == st.users && o.state.accounts == st.accounts && o.state.ciphers == st.ciphers
    && o.state.devices.Keys == st.devices.Keys
    && (forall d :: d in st.devices && d != device ==> o.state.devices[d] == st.devices[d])
    && o.state.devices[device] == Device(user, Some(w.hash(newToken)), st.devices[device].remember)
  }
}
