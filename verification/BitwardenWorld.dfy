/** The functions of CipherString are a lawful world for the accounts and vaults of the Bitwarden-compatible API. */
module BitwardenWorld {
  import opened Text
  import opened Bytes
  import C = CipherString
  import B = Bitwarden
  import V = VaultKeys
  import Base64Url

  function Plain(r: C.Result<Bytes>): Option<Bytes> {
    match r
    case Ok(b) => Some(b)
    case Err(_) => None
  }

  /** An IV or key of the wrong length gives no text. */
  function Wrapped(c: C.Crypto, masterKey: Bytes, iv: Bytes, key: Bytes): string
    requires C.Lawful(c)
  {
    if |iv| == C.BLOCK then C.WrapUserKey(c, masterKey, iv, key) else ""
  }

  function Sealed(c: C.Crypto, key: Bytes, iv: Bytes, plain: Bytes): string
    requires C.Lawful(c)
  {
    if |key| == 64 && |iv| == C.BLOCK then C.Sealed(c, key, iv, plain) else ""
  }

  ghost function RealWorld(
      c: C.Crypto, kdf: (string, string) -> Bytes, rawStd64: string -> Option<Bytes>, hash: string -> string,
      validTotp: (string, string, int) -> bool): B.World
    requires C.Lawful(c)
  {
    B.World(
      kdf, (mk: Bytes, salt: string) => C.HashMasterKey(c, mk, salt),
      (mk: Bytes, salt: string, stored: string) => C.VerifyMasterKey(c, mk, salt, stored),
      (mk: Bytes, iv: Bytes, key: Bytes) => Wrapped(c, mk, iv, key),
      (mk: Bytes, text: string) => Plain(C.UnwrapUserKey(c, mk, text)),
      (key: Bytes, iv: Bytes, plain: Bytes) => Sealed(c, key, iv, plain),
      (key: Bytes, text: string) => Plain(C.Opened(c, key, text)),
      c.std64, c.unstd64, rawStd64, (text: string) => Base64Url.Decode(text), hash, validTotp)
  }

  lemma EmptyDoesNotOpen(c: C.Crypto, key: Bytes)
    requires C.Lawful(c)
    ensures C.Opened(c, key, "").Err?
  {
    assert |Split("", '.')| == 1;
  }

  lemma HashIsText(c: C.Crypto, masterKey: Bytes, salt: string)
    requires C.Lawful(c)
    ensures var h := C.HashMasterKey(c, masterKey, salt); h != "" && Trimmed(h) && c.unstd64(h).Some?
  {
    var h := c.pbkdf2(masterKey, salt, 1, 32);
    assert c.unstd64(c.std64(h)) == Some(h) && |h| == 32;
  }

  /** So every result about lawful worlds holds of CBC, PKCS#7, encrypt-then-MAC and the printed strings. */
  lemma RealWorldIsLawful(
      c: C.Crypto, kdf: (string, string) -> Bytes, rawStd64: string -> Option<Bytes>, hash: string -> string,
      validTotp: (string, string, int) -> bool)
    requires C.Lawful(c) && forall password, salt :: |kdf(password, salt)| == B.MASTER_BYTES
    ensures B.Lawful(RealWorld(c, kdf, rawStd64, hash, validTotp))
  {
    var w := RealWorld(c, kdf, rawStd64, hash, validTotp);
    forall mk, other, salt
      ensures w.verifyKey(other, salt, w.hashKey(mk, salt)) <==> w.hashKey(other, salt) == w.hashKey(mk, salt)
    {
      C.VerifyHashed(c, mk, other, salt);
    }
    forall mk, salt ensures B.IsHashText(w, w.hashKey(mk, salt)) {
      HashIsText(c, mk, salt);
    }
    forall mk, iv, key | |iv| == B.IV_BYTES ensures w.unwrap(mk, w.wrap(mk, iv, key)) == Some(key) {
      C.UnwrapWrapped(c, mk, iv, key);
    }
    forall mk ensures w.unwrap(mk, "") == None {
      EmptyDoesNotOpen(c, c.hkdf(mk));
    }
    forall key, iv, plain | |key| == B.KEY_BYTES && |iv| == B.IV_BYTES
      ensures w.open(key, w.seal(key, iv, plain)) == Some(plain)
    {
      C.OpenedSealed(c, key, iv, plain);
    }
  }

  // ---- the assumptions can be met -------------------------------------------------------------

  function Zeros(n: nat): (b: Bytes)
    ensures |b| == n
  {
    seq(n, _ => 0)
  }

  /** A crypto with every law: the identity as block cipher and as derivation of 32-byte keys, constants elsewhere. */
  function SampleCrypto(): C.Crypto {
    C.Crypto(
      (k: Bytes, b: Bytes) => b, (k: Bytes, b: Bytes) => b, (k: Bytes, m: Bytes) => Zeros(32), (k: Bytes) => Zeros(64),
      (p: Bytes, s: string, i: nat, n: nat) => if |p| == n then p else Zeros(n),
      (b: Bytes) => Base64Url.Encode(b), (s: string) => Base64Url.Decode(s))
  }

  lemma EncodingIsTrimmed(b: Bytes)
    ensures Trimmed(Base64Url.Encode(b)) && (Base64Url.Encode(b) == "" ==> b == [])
  {
    var text := Base64Url.Encode(b);
    Base64Url.EncodeAlphabet(b);
    Base64Url.DecodeEncode(b);
    if text != "" {
      assert text[0] in text && text[|text| - 1] in text;
    } else {
      assert Base64Url.Decode("") == Some([]);
    }
  }

  lemma SampleIsLawful()
    ensures C.Lawful(SampleCrypto())
  {
    forall b ensures Base64Url.Decode(Base64Url.Encode(b)) == Some(b) && Trimmed(Base64Url.Encode(b))
                     && (Base64Url.Encode(b) == "" ==> b == []) {
      Base64Url.DecodeEncode(b);
      EncodingIsTrimmed(b);
    }
  }

  ghost function SampleWorld(): B.World {
    SampleIsLawful();
    RealWorld(SampleCrypto(), (p: string, s: string) => Zeros(32), (s: string) => None, (s: string) => s,
              (secret: string, code: string, now: int) => false)
  }

  lemma SampleWorldIsLawful()
    ensures B.Lawful(SampleWorld())
  {
    SampleIsLawful();
    RealWorldIsLawful(SampleCrypto(), (p: string, s: string) => Zeros(32), (s: string) => None, (s: string) => s,
                      (secret: string, code: string, now: int) => false);
  }

  /** In this world no 32-byte master key collides with another, for any user. */
  lemma SampleHasNoCollisions(st: B.State, user: string, key: Bytes, wrapped: string)
    requires user in st.users && |key| == B.MASTER_BYTES
    ensures B.Lawful(SampleWorld()) && V.NoCollision(SampleWorld(), st, user, key, wrapped)
  {
    var w := SampleWorld();
    SampleWorldIsLawful();
    var salt := B.NormalizeSalt(st.users[user].email);
    forall other | |other| == B.MASTER_BYTES && w.hashKey(other, salt) == w.hashKey(key, salt) ensures other == key {
      assert w.hashKey(other, salt) == Base64Url.Encode(other) && w.hashKey(key, salt) == Base64Url.Encode(key);
      Base64Url.DecodeEncode(other);
      Base64Url.DecodeEncode(key);
    }
  }

  /** So the run that loses a vault exists over the modelled functions, for every account and every two passwords. */
  lemma SampleVaultIsLost(a: V.Profile, stamp: string, password: string, m: B.Material)
    requires V.WellSizedProfile(a) && B.WellSized(m) && m.userKey != a.material.userKey
    ensures V.IsLost(SampleWorld(), a, stamp, password, m)
  {
    SampleWorldIsLawful();
    V.InUseIsReadable(SampleWorld(), a);
    var key := SampleWorld().kdf(password, B.NormalizeSalt(a.email));
    SampleHasNoCollisions(V.InUseState(SampleWorld(), a), a.user, key, SampleWorld().wrap(key, m.wrapIv, m.userKey));
    V.VaultIsLost(SampleWorld(), a, stamp, password, m);
  }
}
