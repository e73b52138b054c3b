/**
 "Remember this device" (checkTwoFactor of internal/bitwarden/identity.go) over whole runs: exactly when a login on a
 device may still skip the second factor.
 */
module RememberedDevices {
  import opened Text
  import opened Bitwarden
  import R = RefreshTokens

  predicate Remembers(devices: map<string, Device>, d: string, token: string) {
    d in devices && devices[d].remember == token
  }

  /** A login on device `d` that offers `token` in place of a code. */
  predicate Offers(l: Login, d: string, token: string) {
    l.provider == REMEMBERED && l.deviceId == d && Trim(l.code) == token && token != ""
  }

  /** The second factor is skipped exactly when the device is the user's and holds the token. */
  lemma SkipsExactlyWhenRemembered(
      w: World, account: Account, devices: map<string, Device>, user: string, l: Login, d: string, token: string)
    requires Offers(l, d, token)
    ensures CheckTwoFactor(w, account, devices, user, l).Passed?
            <==> Remembers(devices, d, token) && devices[d].user == user
  {
  }

  // ---- what one request does to a remembered device -------------------------------------------

  /** The login gets past the password. */
  ghost predicate Reaches(w: World, st: State, l: Login, user: string) {
    && l.clientId != "" && l.password != "" && l.scope != "" && l.username != "" && l.authRequest == ""
    && UserByEmail(st.users, NormalizeSalt(l.username)) == Some(user)
    && CanLogIn(st, user) && Authentic(w, st, user, l.password)
  }

  /** A right code, from a client that asks to be remembered on `d`. */
  ghost predicate AsksToRemember(w: World, st: State, l: Login, user: string, d: string) {
    && Reaches(w, st, l, user) && UpsertDevice(st.devices, user, l.deviceId).1 && st.accounts[user].twoFactor
    && l.provider == 0 && Trim(l.code) != "" && st.accounts[user].totpSecret != ""
    && w.validTotp(st.accounts[user].totpSecret, Trim(l.code), l.now)
    && l.remember == "1" && l.deviceId == d && d != "" && d in st.devices && st.devices[d].user == user
  }

  ghost predicate Renews(w: World, st: State, r: Request, d: string) {
    r.PasswordGrant? && exists user :: AsksToRemember(w, st, r.login, user, d)
  }

  /** The device is remembered anew, its user resets the security stamp, or its user is deleted. */
  ghost predicate Ends(w: World, st: State, r: Request, d: string) {
    || Renews(w, st, r, d)
    || (d in st.devices && Step(w, st, r).reply.Done?
        && ((r.SecurityStamp? && r.user == st.devices[d].user) || r == DeleteUser(st.devices[d].user)))
  }

  /** The random token of the request is another one. */
  predicate MintsOther(r: Request, token: string) {
    r.PasswordGrant? ==> r.login.rememberToken != token
  }

  lemma RespondKeeps(w: World, st: State, user: string, device: string, token: string, remember: string, d: string)
    requires user in st.accounts && device in st.devices
    ensures var after := Respond(w, st, user, device, token, remember).state.devices;
            && (d in after <==> d in st.devices)
            && (d in st.devices ==> after[d].remember == st.devices[d].remember && after[d].user == st.devices[d].user)
  {
  }

  /** The token a device holds after the check of a login. */
  lemma CheckSets(w: World, account: Account, devices: map<string, Device>, user: string, l: Login, d: string)
    ensures var c := CheckTwoFactor(w, account, devices, user, l);
            c.Passed? ==>
              && (d in c.devices <==> d in devices)
              && (d in devices ==> c.devices[d].user == devices[d].user)
              && (d in devices ==>
                    c.devices[d].remember
                    == if l.provider == 0 && l.remember == "1" && l.deviceId == d && d != "" && devices[d].user == user
                       then l.rememberToken else devices[d].remember)
  {
  }

  lemma UpsertKeeps(devices: map<string, Device>, user: string, identifier: string, d: string)
    ensures var after := UpsertDevice(devices, user, identifier).0;
            && (d in devices ==> d in after && after[d] == devices[d])
            && (d in after && d !in devices ==> after[d].remember == "")
  {
  }

  lemma GrantSets(w: World, st: State, user: string, l: Login, d: string, token: string)
    requires user in st.accounts && token != "" && l.rememberToken != token
    ensures var after := GrantToUser(w, st, user, l).state.devices;
            && (Remembers(after, d, token) ==> Remembers(st.devices, d, token) && after[d].user == st.devices[d].user)
  {
    var (devices, ok) := UpsertDevice(st.devices, user, l.deviceId);
    UpsertKeeps(st.devices, user, l.deviceId, d);
    if ok {
      if !st.accounts[user].twoFactor {
        RespondKeeps(w, st.(devices := devices), user, Trim(l.deviceId), l.token, "", d);
      } else {
        CheckSets(w, st.accounts[user], devices, user, l, d);
        var c := CheckTwoFactor(w, st.accounts[user], devices, user, l);
        if c.Passed? {
          RespondKeeps(w, st.(devices := c.devices), user, Trim(l.deviceId), l.token, c.rememberToken, d);
        }
      }
    }
  }

  lemma GrantEnds(w: World, st: State, user: string, l: Login, d: string, token: string)
    requires user in st.accounts && token != "" && l.rememberToken != token && Remembers(st.devices, d, token)
    ensures var after := GrantToUser(w, st, user, l).state.devices;
            Remembers(after, d, token) <==>
            !(UpsertDevice(st.devices, user, l.deviceId).1 && st.accounts[user].twoFactor
              && l.provider == 0 && Trim(l.code) != "" && st.accounts[user].totpSecret != ""
              && w.validTotp(st.accounts[user].totpSecret, Trim(l.code), l.now)
              && l.remember == "1" && l.deviceId == d && d != "" && st.devices[d].user == user)
  {
    var (devices, ok) := UpsertDevice(st.devices, user, l.deviceId);
    UpsertKeeps(st.devices, user, l.deviceId, d);
    if ok {
      if !st.accounts[user].twoFactor {
        RespondKeeps(w, st.(devices := devices), user, Trim(l.deviceId), l.token, "", d);
      } else {
        CheckSets(w, st.accounts[user], devices, user, l, d);
        var c := CheckTwoFactor(w, st.accounts[user], devices, user, l);
        if c.Passed? {
          RespondKeeps(w, st.(devices := c.devices), user, Trim(l.deviceId), l.token, c.rememberToken, d);
        }
      }
    }
  }

  lemma PasswordEnds(w: World, st: State, l: Login, d: string, token: string)
    requires token != "" && l.rememberToken != token && Remembers(st.devices, d, token)
    ensures Remembers(GrantByPassword(w, st, l).state.devices, d, token) <==> !Renews(w, st, PasswordGrant(l), d)
  {
    var found := UserByEmail(st.users, NormalizeSalt(l.username));
    if found.Some? && Reaches(w, st, l, found.value) {
      GrantEnds(w, st, found.value, l, d, token);
      assert GrantByPassword(w, st, l) == GrantToUser(w, st, found.value, l);
      if Renews(w, st, PasswordGrant(l), d) {
        var user :| AsksToRemember(w, st, l, user, d);
      }
      if !Remembers(GrantByPassword(w, st, l).state.devices, d, token) {
        assert AsksToRemember(w, st, l, found.value, d);
      }
    }
  }

  lemma RefreshKeeps(w: World, st: State, token: string, newToken: string, d: string)
    ensures var after := GrantByRefresh(w, st, token, newToken).state.devices;
            && (d in after <==> d in st.devices)
            && (d in st.devices ==> after[d].remember == st.devices[d].remember && after[d].user == st.devices[d].user)
  {
    var device := Holder(st.devices, w.hash(token));
    if token != "" && device.Some? && R.MayRefresh(st, st.devices[device.value].user) {
      RespondKeeps(w, st, st.devices[device.value].user, device.value, newToken, "", d);
    }
  }

  lemma ClientEnds(w: World, st: State, user: string, r: Request, d: string, token: string)
    requires SignedIn(st, user) && token != ""
    ensures var o := ByClient(w, st, user, r);
            && (Remembers(o.state.devices, d, token) ==>
                  Remembers(st.devices, d, token) && o.state.devices[d].user == st.devices[d].user)
            && (Remembers(st.devices, d, token) ==>
                  (Remembers(o.state.devices, d, token)
                   <==> !(o.reply.Done? && r.SecurityStamp? && user == st.devices[d].user)))
  {
  }

  lemma PanelEnds(w: World, st: State, r: Request, d: string, token: string)
    requires FromPanel(r) && token != ""
    ensures var o := ByPanel(w, st, r);
            && (Remembers(o.state.devices, d, token) ==>
                  Remembers(st.devices, d, token) && o.state.devices[d].user == st.devices[d].user)
            && (Remembers(st.devices, d, token) ==>
                  (Remembers(o.state.devices, d, token) <==> !(o.reply.Done? && r == DeleteUser(st.devices[d].user))))
  {
  }

  /** One request makes a remembering device forget exactly in those cases. */
  lemma EndsExactlyThen(w: World, st: State, r: Request, d: string, token: string)
    requires token != "" && MintsOther(r, token) && Remembers(st.devices, d, token)
    ensures Remembers(Step(w, st, r).state.devices, d, token) <==> !Ends(w, st, r, d)
  {
    if FromPanel(r) {
      PanelEnds(w, st, r, d, token);
    } else if r.PasswordGrant? {
      PasswordEnds(w, st, r.login, d, token);
    } else if r.RefreshGrant? {
      RefreshKeeps(w, st, r.token, r.newToken, d);
    } else if SignedIn(st, r.user) {
      ClientEnds(w, st, r.user, r, d, token);
    }
  }

  /** Only the login that mints a token makes a device remember it; the device keeps its user meanwhile. */
  lemma StepGains(w: World, st: State, r: Request, d: string, token: string)
    requires token != "" && MintsOther(r, token)
    ensures var after := Step(w, st, r).state.devices;
            Remembers(after, d, token) ==> Remembers(st.devices, d, token) && after[d].user == st.devices[d].user
  {
    if FromPanel(r) {
      PanelEnds(w, st, r, d, token);
    } else if r.PasswordGrant? {
      var found := UserByEmail(st.users, NormalizeSalt(r.login.username));
      if found.Some? && Reaches(w, st, r.login, found.value) {
        GrantSets(w, st, found.value, r.login, d, token);
        assert GrantByPassword(w, st, r.login) == GrantToUser(w, st, found.value, r.login);
      }
    } else if r.RefreshGrant? {
      RefreshKeeps(w, st, r.token, r.newToken, d);
    } else if SignedIn(st, r.user) {
      ClientEnds(w, st, r.user, r, d, token);
    }
  }

  // ---- runs -----------------------------------------------------------------------------------

  ghost predicate AllMintOther(rs: seq<Request>, token: string) {
    forall i :: 0 <= i < |rs| ==> MintsOther(rs[i], token)
  }

  ghost predicate Ended(w: World, st: State, rs: seq<Request>, d: string)
    decreases |rs|
  {
    rs != [] && (Ends(w, st, rs[0], d) || Ended(w, Step(w, st, rs[0]).state, rs[1..], d))
  }

  lemma {:induction false} ForgottenForever(w: World, st: State, rs: seq<Request>, d: string, token: string)
    requires token != "" && AllMintOther(rs, token) && !Remembers(st.devices, d, token)
    ensures !Remembers(Run(w, st, rs).devices, d, token)
    decreases |rs|
  {
    if rs != [] {
      assert MintsOther(rs[0], token);
      StepGains(w, st, rs[0], d, token);
      ForgottenForever(w, Step(w, st, rs[0]).state, rs[1..], d, token);
    }
  }

  lemma {:induction false} RememberedExactlyUntilEnded(w: World, st: State, rs: seq<Request>, d: string, token: string)
    requires token != "" && AllMintOther(rs, token) && Remembers(st.devices, d, token)
    ensures var after := Run(w, st, rs).devices;
            && (Remembers(after, d, token) <==> !Ended(w, st, rs, d))
            && (Remembers(after, d, token) ==> after[d].user == st.devices[d].user)
    decreases |rs|
  {
    if rs != [] {
      assert MintsOther(rs[0], token);
      var after := Step(w, st, rs[0]).state;
      EndsExactlyThen(w, st, rs[0], d, token);
      StepGains(w, st, rs[0], d, token);
      if Ends(w, st, rs[0], d) {
        ForgottenForever(w, after, rs[1..], d, token);
      } else {
        RememberedExactlyUntilEnded(w, after, rs[1..], d, token);
      }
    }
  }

  /**
   After any run, a login of the device's user that offers the token skips the second factor exactly when no request of
   the run ended it: a changed master password does not, nor does turning the second factor off and on again.
   */
  lemma SkipsExactlyUntilEnded(
      w: World, st: State, rs: seq<Request>, d: string, token: string, account: Account, l: Login)
    requires AllMintOther(rs, token) && Remembers(st.devices, d, token) && Offers(l, d, token)
    ensures CheckTwoFactor(w, account, Run(w, st, rs).devices, st.devices[d].user, l).Passed? <==> !Ended(w, st, rs, d)
  {
    RememberedExactlyUntilEnded(w, st, rs, d, token);
    SkipsExactlyWhenRemembered(w, account, Run(w, st, rs).devices, st.devices[d].user, l, d, token);
  }

  /** No run of master-password changes, second-factor settings and refreshes ends it, by whomever. */
  lemma {:induction false} SettingsKeepRemembered(w: World, st: State, rs: seq<Request>, d: string)
    requires forall i :: 0 <= i < |rs| ==> rs[i].ChangeMasterPassword? || OnTwoFactor(rs[i]) || rs[i].RefreshGrant?
    ensures !Ended(w, st, rs, d)
    decreases |rs|
  {
    if rs != [] { SettingsKeepRemembered(w, Step(w, st, rs[0]).state, rs[1..], d); }
  }
}
