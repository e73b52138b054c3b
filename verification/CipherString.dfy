/**
 The "2.iv.ciphertext.mac" strings of internal/bitwarden/bwcrypto/bwcrypto.go: PKCS#7 padding
 (section 6.3 of RFC 5652), CBC (section 6.2 of NIST SP 800-38A) and encrypt-then-MAC.
 */
module CipherString {
  import opened Text
  import opened Bytes
  import Base64Url

  const BLOCK := 16

  datatype Result<+T> = Ok(value: T) | Err(error: string)

  /** Library code: a block permutation with its inverse, a MAC, and the key derivations. */
  datatype Crypto = Crypto(
    aes: (Bytes, Bytes) -> Bytes,
    aesInverse: (Bytes, Bytes) -> Bytes,
    hmac: (Bytes, Bytes) -> Bytes,
    hkdf: Bytes -> Bytes,
    pbkdf2: (Bytes, string, nat, nat) -> Bytes,
    std64: Bytes -> string,
    unstd64: string -> Option<Bytes>)

  ghost predicate Lawful(c: Crypto) {
    && (forall k, b :: |b| == BLOCK ==> |c.aes(k, b)| == BLOCK && c.aesInverse(k, c.aes(k, b)) == b)
    && (forall k, b :: |b| == BLOCK ==> |c.aesInverse(k, b)| == BLOCK && c.aes(k, c.aesInverse(k, b)) == b)
    && (forall k, m :: |c.hmac(k, m)| == 32)
    && (forall k :: |c.hkdf(k)| == 64)
    && (forall p, s, i, n :: |c.pbkdf2(p, s, i, n)| == n)
    && (forall b :: c.unstd64(c.std64(b)) == Some(b) && Trimmed(c.std64(b)) && (c.std64(b) == "" ==> b == []))
  }

  // ---- padding --------------------------------------------------------------------------------

  function Copies(n: byte, count: nat): (b: Bytes)
    ensures |b| == count && forall i :: 0 <= i < count ==> b[i] == n
  {
    seq(count, _ => n)
  }

  function Padded(data: Bytes): (b: Bytes)
    ensures |b| % BLOCK == 0 && |b| > |data|
  {
    var n := BLOCK - |data| % BLOCK;
    data + Copies(n, n)
  }

  /** What `unpad` accepts: a last byte in 1..16 that fills as many last bytes as it says. */
  function Unpadded(data: Bytes): Option<Bytes> {
    if data == [] then None
    else
      var n := data[|data| - 1];
      if 1 <= n <= BLOCK && n <= |data| && data[|data| - n..] == Copies(n, n) then Some(data[..|data| - n]) else None
  }

  /** On whole blocks, unpadding accepts exactly the paddings, and inverts them. */
  lemma UnpaddedIffPadded(data: Bytes, p: Bytes)
    requires |data| % BLOCK == 0
    ensures Unpadded(data) == Some(p) <==> data == Padded(p)
  {
    if data == Padded(p) {
      var n := BLOCK - |p| % BLOCK;
      assert data[|p|..] == Copies(n, n);
      assert data[|data| - 1] == n;
    }
    if Unpadded(data) == Some(p) {
      var n := data[|data| - 1];
      assert data == p + Copies(n, n);
      assert n == BLOCK - |p| % BLOCK;
    }
  }

  method Pad(data: Bytes) returns (b: Bytes)
    ensures b == Padded(data)
  {
    var padLen := BLOCK - |data| % BLOCK;
    var out := new byte[|data| + padLen](i => if 0 <= i < |data| then data[i] else 0);
    var i := |data|;
    while i < out.Length
      invariant |data| <= i <= out.Length
      invariant out[..i] == data + Copies(padLen, i - |data|)
    {
      out[i] := padLen;
      i := i + 1;
      assert out[..i] == out[..i - 1] + [padLen];
    }
    b := out[..];
  }

  method Unpad(data: Bytes) returns (r: Result<Bytes>)
    ensures r.Ok? <==> Unpadded(data).Some?
    ensures r.Ok? ==> r.value == Unpadded(data).value
    ensures r.Err? ==> r.error == if data == [] then "ciphertext empty" else "invalid padding"
  {
    if |data| == 0 { return Err("ciphertext empty"); }
    var padLen := data[|data| - 1];
    if padLen == 0 || padLen > BLOCK || padLen > |data| { return Err("invalid padding"); }
    var i := |data| - padLen;
    while i < |data|
      invariant |data| - padLen <= i <= |data|
      invariant forall k :: |data| - padLen <= k < i ==> data[k] == padLen
    {
      if data[i] != padLen {
        assert data[|data| - padLen..][i - (|data| - padLen)] != padLen;
        return Err("invalid padding");
      }
      i := i + 1;
    }
    assert data[|data| - padLen..] == Copies(padLen, padLen);
    return Ok(data[..|data| - padLen]);
  }

  // ---- cipher block chaining ------------------------------------------------------------------

  function CbcEncrypt(c: Crypto, key: Bytes, iv: Bytes, plain: Bytes): (ct: Bytes)
    requires Lawful(c) && |iv| == BLOCK && |plain| % BLOCK == 0
    ensures |ct| == |plain|
    decreases |plain|
  {
    if plain == [] then []
    else
      var block := c.aes(key, Xor(plain[..BLOCK], iv));
      block + CbcEncrypt(c, key, block, plain[BLOCK..])
  }

  function CbcDecrypt(c: Crypto, key: Bytes, iv: Bytes, ct: Bytes): (plain: Bytes)
    requires Lawful(c) && |iv| == BLOCK && |ct| % BLOCK == 0
    ensures |plain| == |ct|
    decreases |ct|
  {
    if ct == [] then []
    else Xor(c.aesInverse(key, ct[..BLOCK]), iv) + CbcDecrypt(c, key, ct[..BLOCK], ct[BLOCK..])
  }

  lemma {:induction false} CbcDecryptEncrypt(c: Crypto, key: Bytes, iv: Bytes, plain: Bytes)
    requires Lawful(c) && |iv| == BLOCK && |plain| % BLOCK == 0
    ensures CbcDecrypt(c, key, iv, CbcEncrypt(c, key, iv, plain)) == plain
    decreases |plain|
  {
    if plain != [] {
      var x := Xor(plain[..BLOCK], iv);
      var block := c.aes(key, x);
      var ct := CbcEncrypt(c, key, iv, plain);
      assert ct[..BLOCK] == block && ct[BLOCK..] == CbcEncrypt(c, key, block, plain[BLOCK..]);
      assert c.aesInverse(key, block) == x;
      XorCancels(plain[..BLOCK], iv);
      CbcDecryptEncrypt(c, key, block, plain[BLOCK..]);
    }
  }

  lemma {:induction false} CbcEncryptDecrypt(c: Crypto, key: Bytes, iv: Bytes, ct: Bytes)
    requires Lawful(c) && |iv| == BLOCK && |ct| % BLOCK == 0
    ensures CbcEncrypt(c, key, iv, CbcDecrypt(c, key, iv, ct)) == ct
    decreases |ct|
  {
    if ct != [] {
      var x := c.aesInverse(key, ct[..BLOCK]);
      var plain := CbcDecrypt(c, key, iv, ct);
      assert plain[..BLOCK] == Xor(x, iv) && plain[BLOCK..] == CbcDecrypt(c, key, ct[..BLOCK], ct[BLOCK..]);
      XorCancels(x, iv);
      assert c.aes(key, x) == ct[..BLOCK];
      CbcEncryptDecrypt(c, key, ct[..BLOCK], ct[BLOCK..]);
    }
  }

  // ---- block by block -------------------------------------------------------------------------

  function Block(b: Bytes, i: nat): (block: Bytes)
    requires |b| % BLOCK == 0 && i < |b| / BLOCK
    ensures |block| == BLOCK
  {
    b[BLOCK * i..BLOCK * i + BLOCK]
  }

  /** The block before block `i` of a ciphertext; the IV stands before the first. */
  function Previous(iv: Bytes, ct: Bytes, i: nat): (block: Bytes)
    requires |iv| == BLOCK && |ct| % BLOCK == 0 && i < |ct| / BLOCK
    ensures |block| == BLOCK
  {
    if i == 0 then iv else Block(ct, i - 1)
  }

  /** Section 6.2 of NIST SP 800-38A: every block is the image of its plaintext block and the one before it. */
  ghost predicate Chained(c: Crypto, key: Bytes, iv: Bytes, plain: Bytes, ct: Bytes)
    requires |iv| == BLOCK
  {
    && |ct| == |plain| && |plain| % BLOCK == 0
    && forall i :: 0 <= i < |plain| / BLOCK ==> Block(ct, i) == c.aes(key, Xor(Block(plain, i), Previous(iv, ct, i)))
  }

  /** And back. */
  ghost predicate Unchained(c: Crypto, key: Bytes, iv: Bytes, ct: Bytes, plain: Bytes)
    requires Lawful(c) && |iv| == BLOCK
  {
    && |ct| == |plain| && |ct| % BLOCK == 0
    && forall i :: 0 <= i < |ct| / BLOCK ==>
         Block(plain, i) == Xor(c.aesInverse(key, Block(ct, i)), Previous(iv, ct, i))
  }

  lemma TailBlock(b: Bytes, i: nat)
    requires |b| % BLOCK == 0 && 0 < i < |b| / BLOCK
    ensures Block(b[BLOCK..], i - 1) == Block(b, i)
  {
  }

  lemma TailPrevious(iv: Bytes, ct: Bytes, i: nat)
    requires |iv| == BLOCK && |ct| % BLOCK == 0 && 0 < i < |ct| / BLOCK
    ensures Previous(ct[..BLOCK], ct[BLOCK..], i - 1) == Previous(iv, ct, i)
  {
    if i > 1 { TailBlock(ct, i - 1); }
  }

  lemma {:induction false} EncryptedIsChained(c: Crypto, key: Bytes, iv: Bytes, plain: Bytes)
    requires Lawful(c) && |iv| == BLOCK && |plain| % BLOCK == 0
    ensures Chained(c, key, iv, plain, CbcEncrypt(c, key, iv, plain))
    decreases |plain|
  {
    if plain != [] {
      var ct := CbcEncrypt(c, key, iv, plain);
      var first := c.aes(key, Xor(plain[..BLOCK], iv));
      assert ct[..BLOCK] == first && ct[BLOCK..] == CbcEncrypt(c, key, first, plain[BLOCK..]);
      EncryptedIsChained(c, key, first, plain[BLOCK..]);
      forall i | 0 <= i < |plain| / BLOCK
        ensures Block(ct, i) == c.aes(key, Xor(Block(plain, i), Previous(iv, ct, i)))
      {
        if i > 0 {
          TailBlock(plain, i);
          TailBlock(ct, i);
          TailPrevious(iv, ct, i);
        }
      }
    }
  }

  lemma {:induction false} DecryptedIsUnchained(c: Crypto, key: Bytes, iv: Bytes, ct: Bytes)
    requires Lawful(c) && |iv| == BLOCK && |ct| % BLOCK == 0
    ensures Unchained(c, key, iv, ct, CbcDecrypt(c, key, iv, ct))
    decreases |ct|
  {
    if ct != [] {
      var plain := CbcDecrypt(c, key, iv, ct);
      assert plain[BLOCK..] == CbcDecrypt(c, key, ct[..BLOCK], ct[BLOCK..]);
      DecryptedIsUnchained(c, key, ct[..BLOCK], ct[BLOCK..]);
      forall i | 0 <= i < |ct| / BLOCK
        ensures Block(plain, i) == Xor(c.aesInverse(key, Block(ct, i)), Previous(iv, ct, i))
      {
        if i > 0 {
          TailBlock(plain, i);
          TailBlock(ct, i);
          TailPrevious(iv, ct, i);
        }
      }
    }
  }

  lemma {:induction false} SameBlocks(a: Bytes, b: Bytes)
    requires |a| == |b| && |a| % BLOCK == 0 && forall i :: 0 <= i < |a| / BLOCK ==> Block(a, i) == Block(b, i)
    ensures a == b
  {
    forall k | 0 <= k < |a| ensures a[k] == b[k] {
      assert Block(a, k / BLOCK)[k % BLOCK] == Block(b, k / BLOCK)[k % BLOCK];
    }
  }

  /** The chain has one ciphertext: the one that is computed. */
  lemma ChainedIffEncrypted(c: Crypto, key: Bytes, iv: Bytes, plain: Bytes, ct: Bytes)
    requires Lawful(c) && |iv| == BLOCK && |plain| % BLOCK == 0
    ensures Chained(c, key, iv, plain, ct) <==> ct == CbcEncrypt(c, key, iv, plain)
  {
    var made := CbcEncrypt(c, key, iv, plain);
    EncryptedIsChained(c, key, iv, plain);
    if Chained(c, key, iv, plain, ct) {
      ChainedAgree(c, key, iv, plain, ct, made, |plain| / BLOCK);
      SameBlocks(ct, made);
    }
  }

  lemma {:induction false} ChainedAgree(
      c: Crypto, key: Bytes, iv: Bytes, plain: Bytes, a: Bytes, b: Bytes, n: nat)
    requires |iv| == BLOCK && Chained(c, key, iv, plain, a) && Chained(c, key, iv, plain, b) && n <= |plain| / BLOCK
    ensures forall i :: 0 <= i < n ==> Block(a, i) == Block(b, i)
    decreases n
  {
    if n > 0 { ChainedAgree(c, key, iv, plain, a, b, n - 1); }
  }

  // ---- sealing and opening --------------------------------------------------------------------

  /** The parts of a sealed string, before printing. */
  function Ciphertext(c: Crypto, key: Bytes, iv: Bytes, plain: Bytes): Bytes
    requires Lawful(c) && |key| == 64 && |iv| == BLOCK
  {
    CbcEncrypt(c, key[..32], iv, Padded(plain))
  }

  function Sealed(c: Crypto, key: Bytes, iv: Bytes, plain: Bytes): string
    requires Lawful(c) && |key| == 64 && |iv| == BLOCK
  {
    var ct := Ciphertext(c, key, iv, plain);
    "2." + Base64Url.Encode(iv) + "." + Base64Url.Encode(ct) + "." + Base64Url.Encode(c.hmac(key[32..], iv + ct))
  }

  function Opened(c: Crypto, key: Bytes, encoded: string): Result<Bytes>
    requires Lawful(c)
  {
    var parts := Split(encoded, '.');
    if |parts| == 4 then
      if parts[0] != "2" then Err("unsupported cipher format")
      else if |key| != 64 then Err("key must be 64 bytes (enc‖mac)")
      else
        var iv, ct, mac := Base64Url.Decode(parts[1]), Base64Url.Decode(parts[2]), Base64Url.Decode(parts[3]);
        if iv.None? || ct.None? || mac.None? then Err("illegal base64 data")
        else OpenedParts(c, key, iv.value, ct.value, mac.value)
    else if |parts| == 2 && parts[0] == "0" then
      match Base64Url.Decode(parts[1]) case None => Err("illegal base64 data") case Some(b) => Ok(b)
    else if |parts| == 2 && parts[0] == "1" then Err("legacy format 1 is not supported")
    else Err("invalid cipher string")
  }

  function OpenedParts(c: Crypto, key: Bytes, iv: Bytes, ct: Bytes, mac: Bytes): Result<Bytes>
    requires Lawful(c) && |key| == 64
  {
    if mac != c.hmac(key[32..], iv + ct) then Err("message authentication failed")
    else if |iv| != BLOCK || |ct| == 0 || |ct| % BLOCK != 0 then Err("invalid ciphertext length")
    else
      match Unpadded(CbcDecrypt(c, key[..32], iv, ct))
      case None => Err("invalid padding")
      case Some(plain) => Ok(plain)
  }

  /** Encrypt; the random IV is an input. */
  method Encrypt(c: Crypto, key: Bytes, iv: Bytes, plaintext: Bytes) returns (r: Result<string>)
    requires Lawful(c) && |iv| == BLOCK
    ensures r == if |key| == 64 then Ok(Sealed(c, key, iv, plaintext)) else Err("key must be 64 bytes (enc‖mac)")
  {
    if |key| != 64 { return Err("key must be 64 bytes (enc‖mac)"); }
    var encKey, macKey := key[..32], key[32..];
    var padded := Pad(plaintext);
    var ciphertext := CbcEncrypt(c, encKey, iv, padded);
    var mac := c.hmac(macKey, iv + ciphertext);
    return Ok("2." + Base64Url.Encode(iv) + "." + Base64Url.Encode(ciphertext) + "." + Base64Url.Encode(mac));
  }

  method Decrypt(c: Crypto, key: Bytes, encoded: string) returns (r: Result<Bytes>)
    requires Lawful(c)
    ensures r == Opened(c, key, encoded)
  {
    var parts := Split(encoded, '.');
    if |parts| == 4 {
      if parts[0] != "2" { return Err("unsupported cipher format"); }
      if |key| != 64 { return Err("key must be 64 bytes (enc‖mac)"); }
      var encKey, macKey := key[..32], key[32..];
      var iv := Base64Url.Decode(parts[1]);
      if iv.None? { return Err("illegal base64 data"); }
      var ciphertext := Base64Url.Decode(parts[2]);
      if ciphertext.None? { return Err("illegal base64 data"); }
      var mac := Base64Url.Decode(parts[3]);
      if mac.None? { return Err("illegal base64 data"); }
      var expected := c.hmac(macKey, iv.value + ciphertext.value);
      if mac.value != expected { return Err("message authentication failed"); }
      if |iv.value| != BLOCK || |ciphertext.value| == 0 || |ciphertext.value| % BLOCK != 0 {
        return Err("invalid ciphertext length");
      }
      var plain := CbcDecrypt(c, encKey, iv.value, ciphertext.value);
      r := Unpad(plain);
      return;
    }
    if |parts| == 2 && parts[0] == "0" {
      var raw := Base64Url.Decode(parts[1]);
      if raw.None? { return Err("illegal base64 data"); }
      return Ok(raw.value);
    }
    if |parts| == 2 && parts[0] == "1" { return Err("legacy format 1 is not supported"); }
    return Err("invalid cipher string");
  }

  /** Printing and splitting a sealed string gives back exactly its four parts. */
  lemma SealedParts(c: Crypto, key: Bytes, iv: Bytes, plain: Bytes)
    requires Lawful(c) && |key| == 64 && |iv| == BLOCK
    ensures var ct := Ciphertext(c, key, iv, plain);
            Split(Sealed(c, key, iv, plain), '.')
            == ["2", Base64Url.Encode(iv), Base64Url.Encode(ct), Base64Url.Encode(c.hmac(key[32..], iv + ct))]
  {
    var ct := Ciphertext(c, key, iv, plain);
    var a, b, m := Base64Url.Encode(iv), Base64Url.Encode(ct), Base64Url.Encode(c.hmac(key[32..], iv + ct));
    Base64Url.EncodeAlphabet(iv);
    Base64Url.EncodeAlphabet(ct);
    Base64Url.EncodeAlphabet(c.hmac(key[32..], iv + ct));
    var parts := ["2", a, b, m];
    JoinFour("2", a, b, m);
    assert "2" + "." == "2.";
    SplitJoin(parts, '.');
  }

  lemma JoinFour(a: string, b: string, c: string, d: string)
    ensures Join([a, b, c, d], '.') == a + "." + b + "." + c + "." + d
  {
    assert [a, b, c, d][1..] == [b, c, d] && [b, c, d][1..] == [c, d] && [c, d][1..] == [d];
    assert Join([c, d], '.') == c + "." + d;
    assert Join([b, c, d], '.') == b + "." + (c + "." + d);
    assert a + "." + (b + "." + (c + "." + d)) == a + "." + b + "." + c + "." + d;
  }

  /** `n` bytes of value `n`, from 1 to 16 of them, fill the last block. */
  ghost predicate IsPadding(plain: Bytes, padded: Bytes) {
    && |plain| < |padded| <= |plain| + BLOCK && |padded| % BLOCK == 0 && padded[..|plain|] == plain
    && forall k :: |plain| <= k < |padded| ==> padded[k] == |padded| - |plain|
  }

  lemma PaddedIsPadding(plain: Bytes, padded: Bytes)
    ensures IsPadding(plain, padded) <==> padded == Padded(plain)
  {
    if IsPadding(plain, padded) {
      var n := |padded| - |plain|;
      assert n == BLOCK - |plain| % BLOCK;
      assert padded == plain + Copies(n, n);
    }
  }

  /**
   What a cipher of `plain` under a 64-byte key is: the IV, and the chain of the padded plaintext under the first 32
   bytes of the key, authenticated together under the last 32.
   */
  ghost predicate IsCipherOf(c: Crypto, key: Bytes, iv: Bytes, ct: Bytes, mac: Bytes, plain: Bytes)
    requires |key| == 64
  {
    && |iv| == BLOCK && mac == c.hmac(key[32..64], iv + ct)
    && exists padded :: IsPadding(plain, padded) && Chained(c, key[0..32], iv, padded, ct)
  }

  lemma OpenedPartsExactly(c: Crypto, key: Bytes, iv: Bytes, ct: Bytes, mac: Bytes, plain: Bytes)
    requires Lawful(c) && |key| == 64
    ensures OpenedParts(c, key, iv, ct, mac) == Ok(plain) <==> IsCipherOf(c, key, iv, ct, mac, plain)
  {
    OpenedPartsAreSealed(c, key, iv, ct, mac, plain);
    PaddedIsPadding(plain, Padded(plain));
    assert key[32..64] == key[32..] && key[0..32] == key[..32];
    if |iv| == BLOCK { ChainedIffEncrypted(c, key[..32], iv, Padded(plain), ct); }
    forall padded | IsPadding(plain, padded) ensures padded == Padded(plain) {
      PaddedIsPadding(plain, padded);
    }
  }

  /** The printed string of such a cipher: "2.", then IV, ciphertext and MAC in base64url. */
  lemma SealedIsCipher(c: Crypto, key: Bytes, iv: Bytes, plain: Bytes)
    requires Lawful(c) && |key| == 64 && |iv| == BLOCK
    ensures exists ct, mac :: IsCipherOf(c, key, iv, ct, mac, plain)
              && Split(Sealed(c, key, iv, plain), '.')
                 == ["2", Base64Url.Encode(iv), Base64Url.Encode(ct), Base64Url.Encode(mac)]
  {
    var ct := Ciphertext(c, key, iv, plain);
    SealedParts(c, key, iv, plain);
    OpenedPartsAreSealed(c, key, iv, ct, c.hmac(key[32..], iv + ct), plain);
    OpenedPartsExactly(c, key, iv, ct, c.hmac(key[32..], iv + ct), plain);
  }

  /** The four pieces of a printed cipher, decoded. */
  predicate IsPrinted(encoded: string, iv: Bytes, ct: Bytes, mac: Bytes) {
    var parts := Split(encoded, '.');
    && |parts| == 4 && parts[0] == "2" && Base64Url.Decode(parts[1]) == Some(iv)
    && Base64Url.Decode(parts[2]) == Some(ct) && Base64Url.Decode(parts[3]) == Some(mac)
  }

  /** Format 0 is base64url alone. */
  predicate IsUnencrypted(encoded: string, plain: Bytes) {
    var parts := Split(encoded, '.');
    |parts| == 2 && parts[0] == "0" && Base64Url.Decode(parts[1]) == Some(plain)
  }

  /** A string opens to a plaintext exactly when it is a printed cipher of it, or holds it unencrypted. */
  lemma OpensExactlyCiphers(c: Crypto, key: Bytes, encoded: string, plain: Bytes)
    requires Lawful(c)
    ensures Opened(c, key, encoded) == Ok(plain) <==>
            || IsUnencrypted(encoded, plain)
            || (|key| == 64 && exists iv, ct, mac :: IsPrinted(encoded, iv, ct, mac)
                                                     && IsCipherOf(c, key, iv, ct, mac, plain))
  {
    PrintedOrNot(c, key, encoded, plain);
    if |key| == 64 {
      if iv, ct, mac :| IsPrinted(encoded, iv, ct, mac) && IsCipherOf(c, key, iv, ct, mac, plain) {
        PrintedOpens(c, key, encoded, iv, ct, mac);
        OpenedPartsExactly(c, key, iv, ct, mac, plain);
      }
      if iv, ct, mac :| IsPrinted(encoded, iv, ct, mac) {
        PrintedOpens(c, key, encoded, iv, ct, mac);
        OpenedPartsExactly(c, key, iv, ct, mac, plain);
      }
    }
  }

  lemma PrintedOpens(c: Crypto, key: Bytes, encoded: string, iv: Bytes, ct: Bytes, mac: Bytes)
    requires Lawful(c) && |key| == 64 && IsPrinted(encoded, iv, ct, mac)
    ensures Opened(c, key, encoded) == OpenedParts(c, key, iv, ct, mac)
  {
  }

  /** The MAC is checked before anything is decrypted: every printed string with another one gets this error. */
  lemma UnauthenticIsRefusedFirst(c: Crypto, key: Bytes, encoded: string, iv: Bytes, ct: Bytes, mac: Bytes)
    requires Lawful(c) && |key| == 64 && IsPrinted(encoded, iv, ct, mac)
    ensures Opened(c, key, encoded) == Err("message authentication failed") <==> mac != c.hmac(key[32..64], iv + ct)
  {
    PrintedOpens(c, key, encoded, iv, ct, mac);
    assert key[32..64] == key[32..];
  }

  lemma PrintedOrNot(c: Crypto, key: Bytes, encoded: string, plain: Bytes)
    requires Lawful(c)
    ensures IsUnencrypted(encoded, plain) ==> Opened(c, key, encoded) == Ok(plain)
    ensures Opened(c, key, encoded) == Ok(plain) && !IsUnencrypted(encoded, plain) ==>
              |key| == 64 && exists iv, ct, mac :: IsPrinted(encoded, iv, ct, mac)
  {
    var parts := Split(encoded, '.');
    if |parts| == 4 && Opened(c, key, encoded) == Ok(plain) {
      var iv, ct, mac := Base64Url.Decode(parts[1]), Base64Url.Decode(parts[2]), Base64Url.Decode(parts[3]);
      assert IsPrinted(encoded, iv.value, ct.value, mac.value);
    }
  }

  /** Decrypting what was encrypted gives the plaintext back, whatever its length. */
  lemma OpenedSealed(c: Crypto, key: Bytes, iv: Bytes, plain: Bytes)
    requires Lawful(c) && |key| == 64 && |iv| == BLOCK
    ensures Opened(c, key, Sealed(c, key, iv, plain)) == Ok(plain)
  {
    var ct := Ciphertext(c, key, iv, plain);
    SealedParts(c, key, iv, plain);
    Base64Url.DecodeEncode(iv);
    Base64Url.DecodeEncode(ct);
    Base64Url.DecodeEncode(c.hmac(key[32..], iv + ct));
    CbcDecryptEncrypt(c, key[..32], iv, Padded(plain));
    UnpaddedIffPadded(Padded(plain), plain);
  }

  /** Conversely, authenticated parts open to a plaintext only if they are its own IV, ciphertext and MAC. */
  lemma OpenedPartsAreSealed(c: Crypto, key: Bytes, iv: Bytes, ct: Bytes, mac: Bytes, plain: Bytes)
    requires Lawful(c) && |key| == 64
    ensures OpenedParts(c, key, iv, ct, mac) == Ok(plain) <==>
            |iv| == BLOCK && ct == Ciphertext(c, key, iv, plain) && mac == c.hmac(key[32..], iv + ct)
  {
    if |iv| == BLOCK && |ct| % BLOCK == 0 {
      CbcEncryptDecrypt(c, key[..32], iv, ct);
      CbcDecryptEncrypt(c, key[..32], iv, Padded(plain));
      UnpaddedIffPadded(CbcDecrypt(c, key[..32], iv, ct), plain);
    }
  }

  /** A cipher sealed under one key does not open under another that authenticates it differently. */
  lemma ForeignKeyDoesNotOpen(c: Crypto, key: Bytes, other: Bytes, iv: Bytes, plain: Bytes)
    requires Lawful(c) && |key| == 64 && |other| == 64 && |iv| == BLOCK
    requires var ct := Ciphertext(c, key, iv, plain); c.hmac(other[32..], iv + ct) != c.hmac(key[32..], iv + ct)
    ensures Opened(c, other, Sealed(c, key, iv, plain)).Err?
  {
    var ct := Ciphertext(c, key, iv, plain);
    SealedParts(c, key, iv, plain);
    Base64Url.DecodeEncode(iv);
    Base64Url.DecodeEncode(ct);
    Base64Url.DecodeEncode(c.hmac(key[32..], iv + ct));
  }

  // ---- account keys ---------------------------------------------------------------------------

  function WrapUserKey(c: Crypto, masterKey: Bytes, iv: Bytes, userKey: Bytes): string
    requires Lawful(c) && |iv| == BLOCK
  {
    Sealed(c, c.hkdf(masterKey), iv, userKey)
  }

  function UnwrapUserKey(c: Crypto, masterKey: Bytes, wrapped: string): Result<Bytes>
    requires Lawful(c)
  {
    Opened(c, c.hkdf(masterKey), wrapped)
  }

  lemma UnwrapWrapped(c: Crypto, masterKey: Bytes, iv: Bytes, userKey: Bytes)
    requires Lawful(c) && |iv| == BLOCK
    ensures UnwrapUserKey(c, masterKey, WrapUserKey(c, masterKey, iv, userKey)) == Ok(userKey)
    ensures WrapUserKey(c, masterKey, iv, userKey) != ""
  {
    OpenedSealed(c, c.hkdf(masterKey), iv, userKey);
  }

  /** A user key is wrapped under both halves of the stretched master key, and only that key's ciphers unwrap. */
  lemma UnwrapsExactlyCiphers(c: Crypto, masterKey: Bytes, wrapped: string, userKey: Bytes)
    requires Lawful(c)
    ensures UnwrapUserKey(c, masterKey, wrapped) == Ok(userKey) <==>
            || IsUnencrypted(wrapped, userKey)
            || exists iv, ct, mac :: IsPrinted(wrapped, iv, ct, mac)
                                     && IsCipherOf(c, c.hkdf(masterKey), iv, ct, mac, userKey)
  {
    OpensExactlyCiphers(c, c.hkdf(masterKey), wrapped, userKey);
  }

  function HashMasterKey(c: Crypto, masterKey: Bytes, salt: string): string {
    c.std64(c.pbkdf2(masterKey, salt, 1, 32))
  }

  predicate VerifyMasterKey(c: Crypto, masterKey: Bytes, salt: string, storedHash: string) {
    match c.unstd64(Trim(storedHash))
    case None => false
    case Some(expected) => expected != [] && c.pbkdf2(masterKey, salt, 1, |expected|) == expected
  }

  /** The stored text holds 32 bytes: one PBKDF2 iteration over the master key, salted with the e-mail's salt. */
  lemma HashHolds(c: Crypto, masterKey: Bytes, salt: string)
    requires Lawful(c)
    ensures c.unstd64(Trim(HashMasterKey(c, masterKey, salt))) == Some(c.pbkdf2(masterKey, salt, 1, 32))
  {
    TrimFixpoint(c.std64(c.pbkdf2(masterKey, salt, 1, 32)));
  }

  /** A blank or unreadable hash verifies no key; a longer or shorter one is compared at its own length. */
  lemma VerifiesExactly(c: Crypto, masterKey: Bytes, salt: string, storedHash: string)
    ensures VerifyMasterKey(c, masterKey, salt, storedHash) <==>
            exists h :: h != [] && c.unstd64(Trim(storedHash)) == Some(h) && c.pbkdf2(masterKey, salt, 1, |h|) == h
  {
  }

  /** A stored hash verifies exactly the master keys with the same derived hash. */
  lemma VerifyHashed(c: Crypto, masterKey: Bytes, other: Bytes, salt: string)
    requires Lawful(c)
    ensures VerifyMasterKey(c, other, salt, HashMasterKey(c, masterKey, salt)) <==>
            HashMasterKey(c, other, salt) == HashMasterKey(c, masterKey, salt)
    ensures VerifyMasterKey(c, masterKey, salt, HashMasterKey(c, masterKey, salt))
  {
    var h := c.pbkdf2(masterKey, salt, 1, 32);
    TrimFixpoint(c.std64(h));
    assert c.unstd64(c.std64(h)) == Some(h);
    assert c.unstd64(c.std64(c.pbkdf2(other, salt, 1, 32))) == Some(c.pbkdf2(other, salt, 1, 32));
  }
}
