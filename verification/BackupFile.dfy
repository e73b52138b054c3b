/**
 The .opbackup file around a backup document (internal/backup/backup.go): a key from a passphrase, an
 authenticated cipher, base64url text. JSON, AES-GCM and the legacy box enter as functions.
 */
module BackupFile {
  import opened Text
  import opened Bytes
  import Base64Url
  import Pbkdf2
  import B = Backup

  const FORMAT := "openpass.backup.v1"
  const KDF := "pbkdf2-sha256"
  const ITERATIONS := 600000
  const KEY_BYTES := 32
  const HASH_BYTES := 32
  const NONCE := 12

  datatype World = World(
    hmac: Pbkdf2.Prf, seal: (Bytes, Bytes, Bytes) -> Bytes, open: (Bytes, Bytes, Bytes) -> Option<Bytes>,
    legacyOpen: (string, string) -> Option<Bytes>, encode: B.Document -> Bytes, decode: Bytes -> Option<B.Document>,
    appSecret: string)

  ghost predicate Lawful(w: World) {
    && Pbkdf2.FixedLength(w.hmac, HASH_BYTES)
    && (forall k, n, p :: w.open(k, n, w.seal(k, n, p)) == Some(p))
    && (forall d :: w.decode(w.encode(d)) == Some(d))
  }

  datatype Envelope = Envelope(format: string, kdf: string, salt: string, iterations: int, ciphertext: string)

  /** A blank password stands for the application secret. */
  function Passphrase(w: World, password: string): string {
    if Trim(password) != "" then password else w.appSecret
  }

  ghost function Key(w: World, password: string, salt: Bytes, iterations: nat): Bytes
    requires Lawful(w) && iterations >= 1
  {
    Pbkdf2.DerivedKey(w.hmac, HASH_BYTES, Utf8(Passphrase(w, password)), salt, iterations, KEY_BYTES)
  }

  function Sealed(w: World, key: Bytes, nonce: Bytes, plain: Bytes): string {
    "v2:" + Base64Url.Encode(nonce + w.seal(key, nonce, plain))
  }

  function WithoutPrefix(s: string, prefix: string): string {
    if prefix <= s then s[|prefix|..] else s
  }

  function Opened(w: World, key: Bytes, ciphertext: string): Option<Bytes> {
    match Base64Url.Decode(WithoutPrefix(ciphertext, "v2:"))
    case None => None
    case Some(raw) => if |raw| < NONCE then None else w.open(key, raw[..NONCE], raw[NONCE..])
  }

  ghost function Exported(w: World, doc: B.Document, password: string, salt: Bytes, nonce: Bytes): Envelope
    requires Lawful(w)
  {
    Envelope(FORMAT, KDF, Base64Url.Encode(salt), ITERATIONS,
             Sealed(w, Key(w, password, salt, ITERATIONS), nonce, w.encode(doc)))
  }

  ghost function Decrypted(w: World, e: Envelope, password: string): Option<Bytes>
    requires Lawful(w)
  {
    if e.kdf == "" then w.legacyOpen(Passphrase(w, password), e.ciphertext)
    else if e.kdf != KDF || e.iterations <= 0 || e.salt == "" then None
    else
      match Base64Url.Decode(e.salt)
      case None => None
      case Some(salt) => Opened(w, Key(w, password, salt, e.iterations), e.ciphertext)
  }

  /** The document of a file, if format, password and payload are right. */
  ghost function ReadFile(w: World, e: Envelope, password: string): Option<B.Document>
    requires Lawful(w)
  {
    if e.format != FORMAT || e.ciphertext == "" then None
    else
      match Decrypted(w, e, password)
      case None => None
      case Some(plain) => w.decode(plain)
  }

  /** A restore from a file; anything wrong leaves the database as it was. */
  ghost function RestoredFile(
      w: World, db: B.Db, owner: string, e: Envelope, password: string, recordId: string, data: string): B.Db
    requires Lawful(w)
  {
    match ReadFile(w, e, password)
    case None => db
    case Some(doc) =>
      match B.Restored(db, owner, doc, recordId, data)
      case None => db
      case Some(after) => after
  }

  // ---- the statements -------------------------------------------------------------------------

  method Export(w: World, doc: B.Document, password: string, salt: Bytes, nonce: Bytes) returns (e: Envelope)
    requires Lawful(w)
    ensures e == Exported(w, doc, password, salt, nonce)
  {
    var key := Pbkdf2.Pbkdf2Key(w.hmac, HASH_BYTES, Utf8(Passphrase(w, password)), salt, ITERATIONS, KEY_BYTES);
    return Envelope(FORMAT, KDF, Base64Url.Encode(salt), ITERATIONS, Sealed(w, key, nonce, w.encode(doc)));
  }

  method DecryptEnvelope(w: World, e: Envelope, password: string) returns (r: Option<Bytes>)
    requires Lawful(w)
    ensures r == Decrypted(w, e, password)
  {
    if e.kdf == "" {
      return w.legacyOpen(Passphrase(w, password), e.ciphertext);
    }
    if e.kdf != KDF { return None; }
    if e.iterations <= 0 || e.salt == "" { return None; }
    var salt := Base64Url.Decode(e.salt);
    if salt.None? { return None; }
    var key := Pbkdf2.Pbkdf2Key(w.hmac, HASH_BYTES, Utf8(Passphrase(w, password)), salt.value, e.iterations, KEY_BYTES);
    return Opened(w, key, e.ciphertext);
  }

  method RestoreFile(
      w: World, database: B.Database, owner: string, e: Envelope, password: string, recordId: string, data: string)
    requires Lawful(w)
    modifies database
    ensures database.Tables() == RestoredFile(w, old(database.Tables()), owner, e, password, recordId, data)
  {
    if e.format != FORMAT || e.ciphertext == "" { return; }
    var plain := DecryptEnvelope(w, e, password);
    if plain.None? { return; }
    var doc := w.decode(plain.value);
    if doc.None? { return; }
    var ok := database.Restore(owner, doc.value, recordId, data);
  }

  // ---- opening what was sealed ----------------------------------------------------------------

  /** A key opens what was sealed exactly as the cipher itself would. */
  lemma OpenedSealed(w: World, key: Bytes, other: Bytes, nonce: Bytes, plain: Bytes)
    requires |nonce| == NONCE
    ensures Opened(w, other, Sealed(w, key, nonce, plain)) == w.open(other, nonce, w.seal(key, nonce, plain))
    ensures Sealed(w, key, nonce, plain) != ""
  {
    var raw := nonce + w.seal(key, nonce, plain);
    var text := Sealed(w, key, nonce, plain);
    Base64Url.DecodeEncode(raw);
    assert "v2:" <= text && text[3..] == Base64Url.Encode(raw);
    assert raw[..NONCE] == nonce && raw[NONCE..] == w.seal(key, nonce, plain);
  }

  lemma SaltIsWritten(salt: Bytes)
    requires salt != []
    ensures Base64Url.Encode(salt) != ""
  {
    Base64Url.DecodeEncode(salt);
    assert Base64Url.Decode("") == Some([]);
  }

  lemma ReadExported(w: World, doc: B.Document, p: string, q: string, salt: Bytes, nonce: Bytes)
    requires Lawful(w) && salt != [] && |nonce| == NONCE
    ensures Decrypted(w, Exported(w, doc, p, salt, nonce), q)
         == w.open(Key(w, q, salt, ITERATIONS), nonce, w.seal(Key(w, p, salt, ITERATIONS), nonce, w.encode(doc)))
    ensures Exported(w, doc, p, salt, nonce).ciphertext != ""
  {
    SaltIsWritten(salt);
    Base64Url.DecodeEncode(salt);
    OpenedSealed(w, Key(w, p, salt, ITERATIONS), Key(w, q, salt, ITERATIONS), nonce, w.encode(doc));
  }

  /** The passphrase of a password: the application secret when nothing but white space is given. */
  predicate Speaks(w: World, password: string, passphrase: string) {
    if Trim(password) == "" then passphrase == w.appSecret else passphrase == password
  }

  /** The 32 bytes that PBKDF2 derives. */
  ghost function Derived(w: World, passphrase: string, salt: Bytes, iterations: nat): Bytes
    requires Lawful(w) && iterations >= 1
  {
    Pbkdf2.DerivedKey(w.hmac, 32, Utf8(passphrase), salt, iterations, 32)
  }

  /** What an export writes: how the key was made, in the open, and nonce and sealed document in one text. */
  lemma ExportWrites(w: World, doc: B.Document, password: string, salt: Bytes, nonce: Bytes, passphrase: string)
    requires Lawful(w) && Speaks(w, password, passphrase)
    ensures var e := Exported(w, doc, password, salt, nonce);
            && e.format == "openpass.backup.v1" && e.kdf == "pbkdf2-sha256" && e.iterations == 600000
            && Base64Url.Decode(e.salt) == Some(salt)
            && "v2:" <= e.ciphertext
            && Base64Url.Decode(e.ciphertext[3..])
               == Some(nonce + w.seal(Derived(w, passphrase, salt, 600000), nonce, w.encode(doc)))
  {
    var raw := nonce + w.seal(Derived(w, passphrase, salt, 600000), nonce, w.encode(doc));
    Base64Url.DecodeEncode(salt);
    Base64Url.DecodeEncode(raw);
    assert Exported(w, doc, password, salt, nonce).ciphertext == "v2:" + Base64Url.Encode(raw);
  }

  /** The bytes of a ciphertext, with or without the mark of the second format. */
  predicate Reads(ciphertext: string, raw: Bytes) {
    Base64Url.Decode(if "v2:" <= ciphertext then ciphertext[3..] else ciphertext) == Some(raw)
  }

  /** Twelve bytes of nonce, and a text that the derived key opens. */
  ghost predicate OpensUnder(w: World, e: Envelope, passphrase: string, salt: Bytes, raw: Bytes, plain: Bytes)
    requires Lawful(w)
  {
    && e.iterations >= 1 && e.salt != "" && Base64Url.Decode(e.salt) == Some(salt)
    && Reads(e.ciphertext, raw) && |raw| >= 12
    && w.open(Derived(w, passphrase, salt, e.iterations), raw[..12], raw[12..]) == Some(plain)
  }

  ghost predicate OpensTo(w: World, e: Envelope, passphrase: string, plain: Bytes)
    requires Lawful(w)
  {
    if e.kdf == "" then w.legacyOpen(passphrase, e.ciphertext) == Some(plain)
    else e.kdf == "pbkdf2-sha256" && exists salt, raw :: OpensUnder(w, e, passphrase, salt, raw, plain)
  }

  lemma DecryptedExactly(w: World, e: Envelope, password: string, passphrase: string, plain: Bytes)
    requires Lawful(w) && Speaks(w, password, passphrase)
    ensures Decrypted(w, e, password) == Some(plain) <==> OpensTo(w, e, passphrase, plain)
  {
    if e.kdf == KDF && Decrypted(w, e, password) == Some(plain) {
      var salt := Base64Url.Decode(e.salt).value;
      var raw := Base64Url.Decode(WithoutPrefix(e.ciphertext, "v2:")).value;
      assert OpensUnder(w, e, passphrase, salt, raw, plain);
    }
    if e.kdf == KDF && OpensTo(w, e, passphrase, plain) {
      var salt, raw :| OpensUnder(w, e, passphrase, salt, raw, plain);
    }
  }

  /** Exactly which files give which document, whoever wrote them; a file without a KDF is one of the old format. */
  lemma ReadsExactly(w: World, e: Envelope, password: string, passphrase: string, doc: B.Document)
    requires Lawful(w) && Speaks(w, password, passphrase)
    ensures ReadFile(w, e, password) == Some(doc) <==>
            && e.format == "openpass.backup.v1" && e.ciphertext != ""
            && exists plain :: OpensTo(w, e, passphrase, plain) && w.decode(plain) == Some(doc)
  {
    var plain := Decrypted(w, e, password);
    if plain.Some? { DecryptedExactly(w, e, password, passphrase, plain.value); }
    forall p | OpensTo(w, e, passphrase, p) ensures plain == Some(p) {
      DecryptedExactly(w, e, password, passphrase, p);
    }
  }

  /** These two passphrases, if different, give different keys, and the cipher rejects the wrong one of them. */
  ghost predicate Separates(w: World, doc: B.Document, p: string, q: string, salt: Bytes, nonce: Bytes)
    requires Lawful(w)
  {
    var made, tried := Key(w, p, salt, ITERATIONS), Key(w, q, salt, ITERATIONS);
    Passphrase(w, p) != Passphrase(w, q) ==>
      made != tried && w.open(tried, nonce, w.seal(made, nonce, w.encode(doc))) == None
  }

  /** A file opens, and gives its document back, exactly with the passphrase it was made with. */
  lemma OpensExactlyWithSamePassphrase(w: World, doc: B.Document, p: string, q: string, salt: Bytes, nonce: Bytes)
    requires Lawful(w) && salt != [] && |nonce| == NONCE
    ensures Passphrase(w, p) == Passphrase(w, q) ==> ReadFile(w, Exported(w, doc, p, salt, nonce), q) == Some(doc)
    ensures Separates(w, doc, p, q, salt, nonce) && Passphrase(w, p) != Passphrase(w, q) ==>
              ReadFile(w, Exported(w, doc, p, salt, nonce), q) == None
  {
    ReadExported(w, doc, p, q, salt, nonce);
  }

  /** No password, or only blanks, is the application secret on both sides; any other password is taken as typed. */
  lemma WhichPasswordsOpen(w: World, doc: B.Document, p: string, q: string, salt: Bytes, nonce: Bytes)
    requires Lawful(w) && salt != [] && |nonce| == NONCE && Separates(w, doc, p, q, salt, nonce)
    ensures ReadFile(w, Exported(w, doc, p, salt, nonce), q) == Some(doc) <==>
            || p == q
            || (Trim(p) == "" && Trim(q) == "")
            || (Trim(p) == "" && q == w.appSecret)
            || (Trim(q) == "" && p == w.appSecret)
  {
    OpensExactlyWithSamePassphrase(w, doc, p, q, salt, nonce);
  }

  /**
   Export to a file and restore from it: with the right password the account comes back, re-owned, beside the
   other accounts' rows, unless one of its audit rows names a key that is not at hand; with a wrong one nothing
   changes.
   */
  lemma FileRestoresAccount(
      w: World, source: B.Db, from: string, doc: B.Document, p: string, salt: Bytes, nonce: Bytes,
      db: B.Db, owner: string, q: string, recordId: string, data: string)
    requires Lawful(w) && salt != [] && |nonce| == NONCE
    requires B.Valid(source) && B.Collected(doc, source, from)
    requires B.Valid(db) && owner in db.users && B.NoClash(source, from, db, owner, recordId)
    ensures var after := RestoredFile(w, db, owner, Exported(w, doc, p, salt, nonce), q, recordId, data);
            && (Passphrase(w, p) == Passphrase(w, q) ==>
                  after == if B.KeysAtHand(source, from, db, owner) then
                             B.WithRecord(B.Merged(source, from, db, owner), recordId, owner, data)
                           else db)
            && (Separates(w, doc, p, q, salt, nonce) && Passphrase(w, p) != Passphrase(w, q) ==> after == db)
  {
    OpensExactlyWithSamePassphrase(w, doc, p, q, salt, nonce);
    if Passphrase(w, p) == Passphrase(w, q) { B.RestoreIsInverse(source, from, db, owner, doc, recordId, data); }
  }
}
