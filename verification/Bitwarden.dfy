/**
 Accounts, devices and refresh tokens of the Bitwarden-compatible API (internal/bitwarden), together with the
 panel requests of internal/admin that reach them. One call of `Step` is one request; random values and the
 clock are inputs. Signing of access tokens is outside: an authenticated request carries its user.
 */
module Bitwarden {
  import opened Text
  import opened Bytes

  const IV_BYTES := 16
  const MASTER_BYTES := 32
  const KEY_BYTES := 64

  /**
   What the server and its clients compute with: `kdf` takes password and salt, `hashKey` and `verifyKey` a
   master key and the salt, `wrap` and `seal` a key, an IV and the plaintext, `validTotp` secret, code and time;
   `hash` is SHA-256 in hexadecimal. BitwardenWorld builds one from the functions of CipherString.
   */
  datatype World = World(
    kdf: (string, string) -> Bytes, hashKey: (Bytes, string) -> string, verifyKey: (Bytes, string, string) -> bool,
    wrap: (Bytes, Bytes, Bytes) -> string, unwrap: (Bytes, string) -> Option<Bytes>,
    seal: (Bytes, Bytes, Bytes) -> string, open: (Bytes, string) -> Option<Bytes>,
    std64: Bytes -> string, unstd64: string -> Option<Bytes>, rawStd64: string -> Option<Bytes>,
    rawUrl64: string -> Option<Bytes>, hash: string -> string, validTotp: (string, string, int) -> bool)

  /** Standard base64 of at least one byte. */
  predicate IsHashText(w: World, text: string) { text != "" && Trimmed(text) && w.unstd64(text).Some? }

  ghost predicate Lawful(w: World) {
    && (forall mk, other, salt :: w.verifyKey(other, salt, w.hashKey(mk, salt))
                                  <==> w.hashKey(other, salt) == w.hashKey(mk, salt))
    && (forall mk, salt :: IsHashText(w, w.hashKey(mk, salt)))
    && (forall password, salt :: |w.kdf(password, salt)| == MASTER_BYTES)
    && (forall mk, iv, key :: |iv| == IV_BYTES ==> w.unwrap(mk, w.wrap(mk, iv, key)) == Some(key))
    && (forall mk :: w.unwrap(mk, "") == None)
    && (forall key, iv, plain :: |key| == KEY_BYTES && |iv| == IV_BYTES ==>
          w.open(key, w.seal(key, iv, plain)) == Some(plain))
    && (forall b :: w.unstd64(w.std64(b)) == Some(b) && Trimmed(w.std64(b)))
  }

  datatype User = User(email: string, active: bool)

  /** A NULL text column is the empty string. */
  datatype Account = Account(
    passwordHash: string, userKey: string, privateKey: string, publicKey: string, stamp: string,
    twoFactor: bool, totpSecret: string)

  datatype Device = Device(user: string, refresh: Option<string>, remember: string)

  /** One encrypted text stands for all the encrypted columns of a cipher. */
  datatype CipherRow = CipherRow(user: string, secret: string)

  datatype State = State(
    users: map<string, User>, accounts: map<string, Account>, devices: map<string, Device>,
    ciphers: map<string, CipherRow>)

  predicate Holds(devices: map<string, Device>, id: string, hash: string) {
    id in devices && devices[id].refresh == Some(hash)
  }

  predicate HasEmail(users: map<string, User>, id: string, email: string) {
    id in users && users[id].email == email
  }

  /** Foreign keys, UNIQUE (email) and UNIQUE (refresh_token_hash). */
  ghost predicate Valid(st: State) {
    && (forall a :: a in st.accounts ==> a in st.users)
    && (forall d :: d in st.devices ==> st.devices[d].user in st.users)
    && (forall c :: c in st.ciphers ==> st.ciphers[c].user in st.users)
    && UniqueEmails(st.users) && UniqueTokens(st.devices)
  }

  ghost predicate UniqueEmails(users: map<string, User>) {
    forall a, b :: a in users && b in users && users[a].email == users[b].email ==> a == b
  }

  ghost predicate UniqueTokens(devices: map<string, Device>) {
    forall a, b, h :: Holds(devices, a, h) && Holds(devices, b, h) ==> a == b
  }

  // ---- requests -------------------------------------------------------------------------------

  /** The random values of one provisioning. */
  datatype Material = Material(
    userKey: Bytes, wrapIv: Bytes, keyIv: Bytes, privateKey: Bytes, publicKey: string, stamp: string)

  predicate WellSized(m: Material) {
    |m.userKey| == KEY_BYTES && |m.wrapIv| == IV_BYTES && |m.keyIv| == IV_BYTES
  }

  /** The form of a password grant; `provider` is its number, 0 when absent or unreadable. */
  datatype Login = Login(
    clientId: string, password: string, scope: string, username: string, authRequest: string, deviceId: string,
    provider: int, code: string, remember: string, now: int, token: string, rememberToken: string)

  /** A cipher of a bulk import under its new id; None when its data is missing or its folder is refused. */
  datatype Item = Item(cipher: string, secret: Option<string>)

  datatype Request =
    | CreateAccount(id: string, email: string, password: string, material: Material)
    | PanelPassword(user: string, password: string, material: Material)
    | SetStatus(user: string, active: bool)
    | DeleteUser(user: string)
    | PasswordGrant(login: Login)
    | RefreshGrant(token: string, newToken: string)
    | ChangeMasterPassword(user: string, hash: string, newHash: string, newKey: string, stamp: string)
    | PostKeys(user: string, privateKey: string, publicKey: string)
    | SecurityStamp(user: string, hash: string, stamp: string)
    | EnableAuthenticator(user: string, hash: string, seed: string)
    | ConfirmAuthenticator(user: string, code: string, now: int)
    | DisableTwoFactor(user: string, hash: string, code: string, now: int)
    | CreateCipher(user: string, cipher: string, secret: string)
    | UpdateCipher(user: string, cipher: string, secret: string)
    | DeleteCipher(user: string, cipher: string)
    | ImportCiphers(user: string, items: seq<Item>)

  predicate FromPanel(r: Request) { r.CreateAccount? || r.PanelPassword? || r.SetStatus? || r.DeleteUser? }

  datatype Reply =
    | Done
    | Refused
    | Granted(user: string, device: string, token: string, key: string, privateKey: string, rememberToken: string)
    | GrantFailed
    | TwoFactorRequired
    | TwoFactorInvalid
    | DeviceError
    | TokenError

  datatype Outcome = Outcome(state: State, reply: Reply)

  function NormalizeSalt(email: string): string { Lower(Trim(email)) }

  // ---- key material ---------------------------------------------------------------------------

  predicate HasDevice(devices: map<string, Device>, user: string) {
    exists d :: d in devices && devices[d].user == user
  }

  /** The account already has a password hash and has been used from a client. */
  predicate InUse(st: State, user: string) {
    user in st.accounts && st.accounts[user].passwordHash != "" && HasDevice(st.devices, user)
  }

  function Provisioned(w: World, email: string, password: string, m: Material, before: Option<Account>): Account {
    var salt := NormalizeSalt(email);
    var masterKey := w.kdf(password, salt);
    Account(w.hashKey(masterKey, salt), w.wrap(masterKey, m.wrapIv, m.userKey),
            w.seal(m.userKey, m.keyIv, m.privateKey), m.publicKey, m.stamp,
            before.Some? && before.value.twoFactor, if before.Some? then before.value.totpSecret else "")
  }

  function AccountOf(st: State, user: string): Option<Account> {
    if user in st.accounts then Some(st.accounts[user]) else None
  }

  /** `ProvisionUser`: nothing happens once the account is in use. */
  function ProvisionUser(w: World, st: State, user: string, password: string, m: Material): State {
    if user !in st.users || InUse(st, user) then st
    else st.(accounts := st.accounts[user := Provisioned(w, st.users[user].email, password, m, AccountOf(st, user))])
  }

  /** The pseudo provider of a "remember this device" token. */
  const REMEMBERED := -2

  // ---- grants ---------------------------------------------------------------------------------

  ghost function UserByEmail(users: map<string, User>, email: string): Option<string> {
    if id :| HasEmail(users, id, email) then Some(id) else None
  }

  ghost function Holder(devices: map<string, Device>, hash: string): Option<string> {
    if id :| Holds(devices, id, hash) then Some(id) else None
  }

  function DecodeKey(w: World, value: string): Option<Bytes> {
    var text := Trim(value);
    if w.unstd64(text).Some? then w.unstd64(text)
    else if w.rawStd64(text).Some? then w.rawStd64(text)
    else w.rawUrl64(text)
  }

  /** INSERT ... ON CONFLICT (id) keeps an existing row, whoever's it is; the device must then be the user's. */
  function UpsertDevice(
      devices: map<string, Device>, user: string, identifier: string): (r: (map<string, Device>, bool))
  {
    var id := Trim(identifier);
    if id == "" then (devices, false)
    else if id in devices then (devices, devices[id].user == user)
    else (devices[id := Device(user, None, "")], true)
  }

  datatype Check = Prompt | Wrong | Passed(devices: map<string, Device>, rememberToken: string)

  function CheckTwoFactor(w: World, account: Account, devices: map<string, Device>, user: string, l: Login): Check {
    var code, own := Trim(l.code), l.deviceId in devices && devices[l.deviceId].user == user;
    if l.provider == REMEMBERED then
      if own && devices[l.deviceId].remember != "" && code != "" && devices[l.deviceId].remember == code then
        Passed(devices, "")
      else Prompt
    else if l.provider == 0 then
      if code == "" || account.totpSecret == "" then Prompt
      else if !w.validTotp(account.totpSecret, code, l.now) then Wrong
      else if l.remember == "1" && own && l.deviceId != "" then
        Passed(devices[l.deviceId := devices[l.deviceId].(remember := l.rememberToken)], l.rememberToken)
      else Passed(devices, "")
    else Prompt
  }

  /** Stores the token's hash at the device, unless another device has that hash. */
  ghost function Respond(
      w: World, st: State, user: string, device: string, token: string, rememberToken: string): Outcome
    requires user in st.accounts && device in st.devices
  {
    var h := w.hash(token);
    if exists other :: Holds(st.devices, other, h) && other != device then Outcome(st, TokenError)
    else
      Outcome(st.(devices := st.devices[device := st.devices[device].(refresh := Some(h))]),
              Granted(user, device, token, st.accounts[user].userKey, st.accounts[user].privateKey, rememberToken))
  }

  predicate CanLogIn(st: State, user: string) {
    && user in st.users && st.users[user].active && user in st.accounts
    && st.accounts[user].passwordHash != "" && st.accounts[user].userKey != ""
  }

  predicate Authentic(w: World, st: State, user: string, password: string)
    requires user in st.users && user in st.accounts
  {
    var masterKey := DecodeKey(w, password);
    masterKey.Some?
    && w.verifyKey(masterKey.value, NormalizeSalt(st.users[user].email), st.accounts[user].passwordHash)
  }

  ghost function GrantByPassword(w: World, st: State, l: Login): Outcome {
    if l.clientId == "" || l.password == "" || l.scope == "" || l.username == "" then Outcome(st, GrantFailed)
    else
      match UserByEmail(st.users, NormalizeSalt(l.username))
      case None => Outcome(st, GrantFailed)
      case Some(user) =>
        if !CanLogIn(st, user) || l.authRequest != "" || !Authentic(w, st, user, l.password) then
          Outcome(st, GrantFailed)
        else GrantToUser(w, st, user, l)
  }

  ghost function GrantToUser(w: World, st: State, user: string, l: Login): Outcome
    requires user in st.accounts
  {
    var (devices, ok) := UpsertDevice(st.devices, user, l.deviceId);
    var registered := st.(devices := devices);
    if !ok then Outcome(registered, DeviceError)
    else if !st.accounts[user].twoFactor then Respond(w, registered, user, Trim(l.deviceId), l.token, "")
    else
      match CheckTwoFactor(w, st.accounts[user], devices, user, l)
      case Prompt => Outcome(registered, TwoFactorRequired)
      case Wrong => Outcome(registered, TwoFactorInvalid)
      case Passed(devices', rememberToken) =>
        Respond(w, st.(devices := devices'), user, Trim(l.deviceId), l.token, rememberToken)
  }

  ghost function GrantByRefresh(w: World, st: State, token: string, newToken: string): Outcome {
    if token == "" then Outcome(st, GrantFailed)
    else
      match Holder(st.devices, w.hash(token))
      case None => Outcome(st, GrantFailed)
      case Some(device) =>
        var user := st.devices[device].user;
        if user !in st.users || user !in st.accounts || !st.users[user].active then Outcome(st, GrantFailed)
        else Respond(w, st, user, device, newToken, "")
  }

  // ---- authenticated requests -----------------------------------------------------------------

  predicate SignedIn(st: State, user: string) {
    user in st.users && st.users[user].active && user in st.accounts && st.accounts[user].userKey != ""
  }

  function VerifyProvidedHash(w: World, account: Account, provided: string): bool {
    var given := Trim(provided);
    && given != "" && account.passwordHash != ""
    && w.unstd64(given).Some? && w.unstd64(given) == w.unstd64(account.passwordHash)
  }

  function TokensCleared(devices: map<string, Device>, user: string): map<string, Device> {
    map d | d in devices :: if devices[d].user == user then devices[d].(refresh := None) else devices[d]
  }

  function DevicesDropped(devices: map<string, Device>, user: string): map<string, Device> {
    map d | d in devices && devices[d].user != user :: devices[d]
  }

  function CiphersDropped(ciphers: map<string, CipherRow>, user: string): map<string, CipherRow> {
    map c | c in ciphers && ciphers[c].user != user :: ciphers[c]
  }

  function WithAccount(st: State, user: string, account: Account): State {
    st.(accounts := st.accounts[user := account])
  }

  function Changed(w: World, st: State, user: string, r: Request): Outcome
    requires user in st.accounts && r.ChangeMasterPassword?
  {
    var account := st.accounts[user];
    if !VerifyProvidedHash(w, account, r.hash) || r.newHash == "" || r.newKey == "" then Outcome(st, Refused)
    else
      Outcome(WithAccount(st, user, account.(passwordHash := r.newHash, userKey := r.newKey, stamp := r.stamp))
              .(devices := TokensCleared(st.devices, user)), Done)
  }

  function KeysPosted(st: State, user: string, r: Request): Outcome
    requires user in st.accounts && r.PostKeys?
  {
    var account := st.accounts[user];
    if account.privateKey != "" || r.privateKey == "" || r.publicKey == "" then Outcome(st, Refused)
    else Outcome(WithAccount(st, user, account.(privateKey := r.privateKey, publicKey := r.publicKey)), Done)
  }

  function StampReset(w: World, st: State, user: string, r: Request): Outcome
    requires user in st.accounts && r.SecurityStamp?
  {
    var account := st.accounts[user];
    if !VerifyProvidedHash(w, account, r.hash) then Outcome(st, Refused)
    else Outcome(WithAccount(st, user, account.(stamp := r.stamp)).(devices := DevicesDropped(st.devices, user)), Done)
  }

  predicate OnTwoFactor(r: Request) { r.EnableAuthenticator? || r.ConfirmAuthenticator? || r.DisableTwoFactor? }

  /** The account's second factor after the request, or None when it is refused. */
  function TwoFactorSet(w: World, account: Account, r: Request): Option<Account>
    requires OnTwoFactor(r)
  {
    match r
    case EnableAuthenticator(_, hash, seed) =>
      if hash != "" && !VerifyProvidedHash(w, account, hash) then None
      else Some(if account.totpSecret != "" then account else account.(totpSecret := seed))
    case ConfirmAuthenticator(_, code, now) =>
      if account.totpSecret == "" || !w.validTotp(account.totpSecret, code, now) then None
      else Some(account.(twoFactor := true))
    case DisableTwoFactor(_, hash, code, now) =>
      if !VerifyProvidedHash(w, account, hash)
         && (account.totpSecret == "" || !w.validTotp(account.totpSecret, code, now))
      then None
      else Some(account.(twoFactor := false, totpSecret := ""))
  }

  predicate OnCipher(r: Request) { r.CreateCipher? || r.UpdateCipher? || r.DeleteCipher? }

  /** The ciphers after the request, or None when it is refused. */
  function CiphersSet(ciphers: map<string, CipherRow>, user: string, r: Request): Option<map<string, CipherRow>>
    requires OnCipher(r)
  {
    match r
    case CreateCipher(_, id, secret) => if id in ciphers then None else Some(ciphers[id := CipherRow(user, secret)])
    case UpdateCipher(_, id, secret) =>
      if id !in ciphers || ciphers[id].user != user then None else Some(ciphers[id := CipherRow(user, secret)])
    case DeleteCipher(_, id) => if id !in ciphers || ciphers[id].user != user then None else Some(ciphers - {id})
  }

  /** A bulk import writes cipher by cipher: the first bad one stops it, and those before it stay. */
  function CiphersImported(
      ciphers: map<string, CipherRow>, user: string, items: seq<Item>): (map<string, CipherRow>, bool)
    decreases |items|
  {
    if items == [] then (ciphers, true)
    else if items[0].secret.None? || items[0].cipher in ciphers then (ciphers, false)
    else CiphersImported(ciphers[items[0].cipher := CipherRow(user, items[0].secret.value)], user, items[1..])
  }

  /** A request of a signed-in client. */
  function ByClient(w: World, st: State, user: string, r: Request): Outcome
    requires SignedIn(st, user)
  {
    if r.ChangeMasterPassword? then Changed(w, st, user, r)
    else if r.PostKeys? then KeysPosted(st, user, r)
    else if r.SecurityStamp? then StampReset(w, st, user, r)
    else if OnTwoFactor(r) then
      match TwoFactorSet(w, st.accounts[user], r)
      case None => Outcome(st, Refused)
      case Some(account) => Outcome(WithAccount(st, user, account), Done)
    else if OnCipher(r) then
      match CiphersSet(st.ciphers, user, r)
      case None => Outcome(st, Refused)
      case Some(ciphers) => Outcome(st.(ciphers := ciphers), Done)
    else if r.ImportCiphers? then
      var (ciphers, ok) := CiphersImported(st.ciphers, user, r.items);
      Outcome(st.(ciphers := ciphers), if ok then Done else Refused)
    else Outcome(st, Refused)
  }

  // ---- one request ----------------------------------------------------------------------------

  /** The account row is created active, then provisioned. */
  ghost function Created(w: World, st: State, r: Request): Outcome
    requires r.CreateAccount?
  {
    var email := Lower(Trim(r.email));
    if email == "" || '@' !in email || r.id in st.users || UserByEmail(st.users, email).Some? then Outcome(st, Refused)
    else Outcome(ProvisionUser(w, st.(users := st.users[r.id := User(email, true)]), r.id, r.password, r.material),
                 Done)
  }

  /** ON DELETE CASCADE takes the user's account, devices and ciphers along. */
  function Deleted(st: State, user: string): State {
    State(st.users - {user}, st.accounts - {user}, DevicesDropped(st.devices, user), CiphersDropped(st.ciphers, user))
  }

  /** A request of the administration panel. */
  ghost function ByPanel(w: World, st: State, r: Request): Outcome
    requires FromPanel(r)
  {
    if r.CreateAccount? then Created(w, st, r)
    else if r.user !in st.users then Outcome(st, Refused)
    else if r.PanelPassword? then Outcome(ProvisionUser(w, st, r.user, r.password, r.material), Done)
    else if r.SetStatus? then Outcome(st.(users := st.users[r.user := st.users[r.user].(active := r.active)]), Done)
    else Outcome(Deleted(st, r.user), Done)
  }

  ghost function Step(w: World, st: State, r: Request): Outcome {
    if FromPanel(r) then ByPanel(w, st, r)
    else if r.PasswordGrant? then GrantByPassword(w, st, r.login)
    else if r.RefreshGrant? then GrantByRefresh(w, st, r.token, r.newToken)
    else if SignedIn(st, r.user) then ByClient(w, st, r.user, r)
    else Outcome(st, Refused)
  }

  ghost function Run(w: World, st: State, rs: seq<Request>): State
    decreases |rs|
  {
    if rs == [] then st else Run(w, Step(w, st, rs[0]).state, rs[1..])
  }
}
