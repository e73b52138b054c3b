/** The hand-written PBKDF2 of internal/backup/backup.go against section 5.2 of RFC 8018. */
module Pbkdf2 {
  import opened Bytes

  type Prf = (Bytes, Bytes) -> Bytes

  ghost predicate FixedLength(prf: Prf, hashLen: nat) {
    hashLen > 0 && forall p, m :: |prf(p, m)| == hashLen
  }

  // ---- section 5.2 of RFC 8018 ----------------------------------------------------------------

  /** U_c of block `block`: the PRF of salt and block number, then of the previous U. */
  function U(prf: Prf, password: Bytes, salt: Bytes, c: nat, block: nat): Bytes
    requires c >= 1
  {
    if c == 1 then prf(password, salt + BigEndian(block, 4)) else prf(password, U(prf, password, salt, c - 1, block))
  }

  /** F: the exclusive or of U_1 to U_c. */
  function F(prf: Prf, hashLen: nat, password: Bytes, salt: Bytes, c: nat, block: nat): (r: Bytes)
    requires FixedLength(prf, hashLen) && c >= 1
    ensures |r| == hashLen
  {
    if c == 1 then U(prf, password, salt, 1, block)
    else Xor(F(prf, hashLen, password, salt, c - 1, block), U(prf, password, salt, c, block))
  }

  /** T_1 || ... || T_n. */
  function Blocks(prf: Prf, hashLen: nat, password: Bytes, salt: Bytes, c: nat, n: nat): (r: Bytes)
    requires FixedLength(prf, hashLen) && c >= 1
    ensures |r| == n * hashLen
  {
    if n == 0 then []
    else Blocks(prf, hashLen, password, salt, c, n - 1) + F(prf, hashLen, password, salt, c, n)
  }

  /** ceil(dkLen / hLen). */
  function BlockCount(keyLen: nat, hashLen: nat): (n: nat)
    requires hashLen > 0
    ensures (n - 1) * hashLen < keyLen <= n * hashLen || (n == 0 && keyLen == 0)
  {
    (keyLen + hashLen - 1) / hashLen
  }

  function DerivedKey(prf: Prf, hashLen: nat, password: Bytes, salt: Bytes, c: nat, keyLen: nat): (dk: Bytes)
    requires FixedLength(prf, hashLen) && c >= 1
    ensures |dk| == keyLen
  {
    Blocks(prf, hashLen, password, salt, c, BlockCount(keyLen, hashLen))[..keyLen]
  }

  /** How many of the first `c` strings have bit `n` set in byte `k`. */
  function BitCount(us: seq<Bytes>, k: nat, n: nat): nat
    requires forall i :: 0 <= i < |us| ==> k < |us[i]|
  {
    if us == [] then 0
    else BitCount(us[..|us| - 1], k, n) + if Bit(us[|us| - 1][k], n) then 1 else 0
  }

  /**
   The chain of section 5.2: the first string is the PRF of the salt and the four octets of the block number, each other
   one the PRF of the one before.
   */
  ghost predicate IsChain(prf: Prf, password: Bytes, salt: Bytes, block: nat, us: seq<Bytes>) {
    && |us| >= 1 && us[0] == prf(password, salt + [block / 0x100_0000 % 256, block / 0x1_0000 % 256,
                                                   block / 0x100 % 256, block % 256])
    && forall i :: 1 <= i < |us| ==> us[i] == prf(password, us[i - 1])
  }

  /** F is, bit for bit, the parity of such a chain of `c` strings. */
  lemma {:induction false} BlockIsParity(prf: Prf, hashLen: nat, password: Bytes, salt: Bytes, c: nat, block: nat)
    returns (us: seq<Bytes>)
    requires FixedLength(prf, hashLen) && c >= 1
    ensures |us| == c && IsChain(prf, password, salt, block, us)
    ensures us[c - 1] == U(prf, password, salt, c, block)
    ensures forall i :: 0 <= i < c ==> |us[i]| == hashLen
    ensures forall k, n: nat :: 0 <= k < hashLen ==>
              (Bit(F(prf, hashLen, password, salt, c, block)[k], n) <==> BitCount(us, k, n) % 2 == 1)
    decreases c
  {
    if c == 1 {
      FourOctets(block);
      us := [U(prf, password, salt, 1, block)];
      forall k, n: nat | 0 <= k < hashLen
        ensures Bit(F(prf, hashLen, password, salt, 1, block)[k], n) <==> BitCount(us, k, n) % 2 == 1
      {
        assert us[..0] == [] && BitCount(us[..0], k, n) == 0;
      }
    } else {
      var before := BlockIsParity(prf, hashLen, password, salt, c - 1, block);
      var f, next := F(prf, hashLen, password, salt, c - 1, block), U(prf, password, salt, c, block);
      us := before + [next];
      assert |us| == c && us[..c - 1] == before;
      assert F(prf, hashLen, password, salt, c, block) == Xor(f, next);
      forall k, n: nat | 0 <= k < hashLen ensures Bit(Xor(f, next)[k], n) <==> BitCount(us, k, n) % 2 == 1 {
        ParityStep(f, next, before, k, n);
      }
    }
  }

  lemma ParityStep(f: Bytes, next: Bytes, us: seq<Bytes>, k: nat, n: nat)
    requires |f| == |next| && k < |f| && forall i :: 0 <= i < |us| ==> |us[i]| == |f|
    requires Bit(f[k], n) <==> BitCount(us, k, n) % 2 == 1
    ensures Bit(Xor(f, next)[k], n) <==> BitCount(us + [next], k, n) % 2 == 1
  {
    XorBit(f, next, k, n);
    CountStep(us, next, k, n);
    OddStep(BitCount(us, k, n), Bit(next[k], n));
  }

  lemma XorBit(a: Bytes, b: Bytes, k: nat, n: nat)
    requires |a| == |b| && k < |a|
    ensures Bit(Xor(a, b)[k], n) <==> Bit(a[k], n) != Bit(b[k], n)
  {
    BitsMean(a[k], b[k], n);
  }

  lemma CountStep(us: seq<Bytes>, next: Bytes, k: nat, n: nat)
    requires k < |next| && forall i :: 0 <= i < |us| ==> k < |us[i]|
    ensures BitCount(us + [next], k, n) == BitCount(us, k, n) + if Bit(next[k], n) then 1 else 0
  {
    assert (us + [next])[..|us|] == us;
  }

  lemma OddStep(count: nat, another: bool)
    ensures (count + if another then 1 else 0) % 2 == 1 <==> (count % 2 == 1) != another
  {
  }

  /** The derived key is the first octets of block 1, block 2 and so on. */
  lemma {:induction false} BlockAt(
      prf: Prf, hashLen: nat, password: Bytes, salt: Bytes, c: nat, n: nat, i: nat, k: nat)
    requires FixedLength(prf, hashLen) && c >= 1 && i < n && k < hashLen
    ensures i * hashLen + k < n * hashLen
    ensures Blocks(prf, hashLen, password, salt, c, n)[i * hashLen + k] == F(prf, hashLen, password, salt, c, i + 1)[k]
    decreases n
  {
    MulMonotone(hashLen, i + 1, n);
    if i < n - 1 { BlockAt(prf, hashLen, password, salt, c, n - 1, i, k); }
  }

  lemma KeyOctet(prf: Prf, hashLen: nat, password: Bytes, salt: Bytes, c: nat, keyLen: nat, j: nat)
    requires FixedLength(prf, hashLen) && c >= 1 && j < keyLen
    ensures DerivedKey(prf, hashLen, password, salt, c, keyLen)[j]
            == F(prf, hashLen, password, salt, c, j / hashLen + 1)[j % hashLen]
  {
    var n, i, k := BlockCount(keyLen, hashLen), j / hashLen, j % hashLen;
    BlockOfOctet(hashLen, keyLen, j);
    BlockAt(prf, hashLen, password, salt, c, n, i, k);
    assert Blocks(prf, hashLen, password, salt, c, n)[..keyLen][j] == Blocks(prf, hashLen, password, salt, c, n)[j];
  }

  lemma BlockOfOctet(hashLen: nat, keyLen: nat, j: nat)
    requires hashLen > 0 && j < keyLen
    ensures j / hashLen < BlockCount(keyLen, hashLen) && (j / hashLen) * hashLen + j % hashLen == j
  {
    var n, i := BlockCount(keyLen, hashLen), j / hashLen;
    if i >= n { MulMonotone(hashLen, n, i); }
  }

  // ---- internal/backup/backup.go --------------------------------------------------------------

  method Pbkdf2F(prf: Prf, ghost hashLen: nat, password: Bytes, salt: Bytes, iterations: int, blockIndex: nat)
    returns (r: Bytes)
    requires FixedLength(prf, hashLen)
    ensures r == F(prf, hashLen, password, salt, if iterations < 1 then 1 else iterations, blockIndex)
  {
    FourOctets(blockIndex);
    var u := prf(password, salt + IndexBytes(blockIndex));
    var out := new byte[|u|](k => if 0 <= k < |u| then u[k] else 0);
    assert out[..] == u;
    var i := 1;
    while i < iterations
      invariant 1 <= i && (i <= iterations || i == 1)
      invariant u == U(prf, password, salt, i, blockIndex)
      invariant out[..] == F(prf, hashLen, password, salt, i, blockIndex)
    {
      NextBlock(prf, hashLen, password, salt, i, blockIndex);
      u := prf(password, u);
      XorInto(out, u);
      i := i + 1;
    }
    r := out[..];
  }

  lemma NextBlock(prf: Prf, hashLen: nat, password: Bytes, salt: Bytes, c: nat, block: nat)
    requires FixedLength(prf, hashLen) && c >= 1
    ensures U(prf, password, salt, c + 1, block) == prf(password, U(prf, password, salt, c, block))
    ensures F(prf, hashLen, password, salt, c + 1, block)
         == Xor(F(prf, hashLen, password, salt, c, block), U(prf, password, salt, c + 1, block))
  {
  }

  /** byte(blockIndex >> 24), byte(blockIndex >> 16), byte(blockIndex >> 8), byte(blockIndex). */
  function IndexBytes(n: nat): Bytes {
    [n / 0x100_0000 % 256, n / 0x1_0000 % 256, n / 0x100 % 256, n % 256]
  }

  lemma FourOctets(n: nat)
    ensures IndexBytes(n) == BigEndian(n, 4)
  {
    assert Pow256(1) == 256 && Pow256(2) == 0x1_0000 && Pow256(3) == 0x100_0000;
  }

  /** The inner loop: `out[j] ^= u[j]`. */
  method XorInto(out: array<byte>, u: Bytes)
    requires |u| == out.Length
    modifies out
    ensures out[..] == Xor(old(out[..]), u)
  {
    for j := 0 to out.Length
      invariant forall k :: 0 <= k < j ==> out[k] == XorByte(old(out[k]), u[k])
      invariant forall k :: j <= k < out.Length ==> out[k] == old(out[k])
    {
      out[j] := XorByte(out[j], u[j]);
    }
  }

  method Pbkdf2Key(prf: Prf, hashLen: nat, password: Bytes, salt: Bytes, iterations: int, keyLen: nat)
    returns (key: Bytes)
    requires FixedLength(prf, hashLen)
    ensures key == DerivedKey(prf, hashLen, password, salt, if iterations < 1 then 1 else iterations, keyLen)
  {
    ghost var c := if iterations < 1 then 1 else iterations;
    var numBlocks := (keyLen + hashLen - 1) / hashLen;
    assert numBlocks == BlockCount(keyLen, hashLen);
    var output: Bytes := [];
    for block := 1 to numBlocks + 1
      invariant output == Blocks(prf, hashLen, password, salt, c, block - 1)
    {
      var u := Pbkdf2F(prf, hashLen, password, salt, iterations, block);
      output := output + u;
    }
    key := output[..keyLen];
  }

  // ---- consequences ---------------------------------------------------------------------------

  lemma {:induction false} BlocksPrefix(prf: Prf, hashLen: nat, password: Bytes, salt: Bytes, c: nat, m: nat, n: nat)
    requires FixedLength(prf, hashLen) && c >= 1 && m <= n
    ensures m * hashLen <= n * hashLen
    ensures Blocks(prf, hashLen, password, salt, c, n)[..m * hashLen] == Blocks(prf, hashLen, password, salt, c, m)
    decreases n
  {
    MulMonotone(hashLen, m, n);
    if m < n {
      BlocksPrefix(prf, hashLen, password, salt, c, m, n - 1);
      assert Blocks(prf, hashLen, password, salt, c, n)[..(n - 1) * hashLen]
             == Blocks(prf, hashLen, password, salt, c, n - 1);
    } else {
      var all := Blocks(prf, hashLen, password, salt, c, n);
      assert all[..|all|] == all;
    }
  }

  /** A shorter derived key is a prefix of a longer one. */
  lemma ShorterKeyIsPrefix(prf: Prf, hashLen: nat, password: Bytes, salt: Bytes, c: nat, short: nat, long: nat)
    requires FixedLength(prf, hashLen) && c >= 1 && short <= long
    ensures DerivedKey(prf, hashLen, password, salt, c, short)
            == DerivedKey(prf, hashLen, password, salt, c, long)[..short]
  {
    var m, n := BlockCount(short, hashLen), BlockCount(long, hashLen);
    BlockCountMonotone(short, long, hashLen);
    BlocksPrefix(prf, hashLen, password, salt, c, m, n);
    PrefixOfPrefix(Blocks(prf, hashLen, password, salt, c, n), m * hashLen, long, short);
  }

  lemma BlockCountMonotone(short: nat, long: nat, hashLen: nat)
    requires hashLen > 0 && short <= long
    ensures BlockCount(short, hashLen) <= BlockCount(long, hashLen)
  {
    DivMonotone(short + hashLen - 1, long + hashLen - 1, hashLen);
  }

  lemma PrefixOfPrefix(s: Bytes, k: nat, long: nat, short: nat)
    requires short <= k <= |s| && short <= long <= |s|
    ensures s[..k][..short] == s[..long][..short]
  {
  }

  /** Below 2^32 blocks, no two blocks derive from the same salted message. */
  lemma BlockMessagesDiffer(salt: Bytes, i: nat, j: nat)
    requires i < 0x1_0000_0000 && j < 0x1_0000_0000 && i != j
    ensures salt + BigEndian(i, 4) != salt + BigEndian(j, 4)
  {
    assert Pow256(2) == 0x1_0000 && Pow256(4) == 0x1_0000_0000;
    if salt + BigEndian(i, 4) == salt + BigEndian(j, 4) {
      assert (salt + BigEndian(i, 4))[|salt|..] == BigEndian(i, 4);
      assert (salt + BigEndian(j, 4))[|salt|..] == BigEndian(j, 4);
      BigEndianInjective(i, j, 4);
    }
  }
}
