/**
 One-time passwords, twice: the generator of internal/totp/totp.go and the validator of
 internal/bitwarden/totp.go. HMAC and base32 are library code and enter as functions.
 */
module Totp {
  import opened Text
  import opened Bytes

  const DEFAULT_DIGITS := 6
  const DEFAULT_PERIOD := 30

  datatype Config = Config(secret: string, digits: int, period: int, algorithm: string)
  datatype Code = Code(code: string, period: int, secondsRemaining: int, digits: int)
  datatype Library = Library(base32: string -> Option<Bytes>, hmac: (string, Bytes, Bytes) -> Bytes)

  function SumSize(algorithm: string): nat {
    if algorithm == "SHA256" then 32 else if algorithm == "SHA512" then 64 else 20
  }

  /** HMAC sums have the size of their hash; unpadded base32 has no lower-case letters. */
  ghost predicate Lawful(lib: Library) {
    && (forall algorithm, key, message :: |lib.hmac(algorithm, key, message)| == SumSize(algorithm))
    && (forall s, i :: lib.base32(s).Some? && 0 <= i < |s| ==> !('a' <= s[i] <= 'z'))
  }

  // ---- what a code is -------------------------------------------------------------------------

  /** The generator's default branch: every other name means SHA1. */
  function HashName(algorithm: string): string {
    if algorithm == "SHA256" || algorithm == "SHA512" then algorithm else "SHA1"
  }

  function PeriodOf(cfg: Config): (p: int)
    ensures p > 0
  {
    if cfg.period <= 0 then DEFAULT_PERIOD else cfg.period
  }

  function DigitsOf(cfg: Config): (d: int)
    ensures d > 0
  {
    if cfg.digits <= 0 then DEFAULT_DIGITS else cfg.digits
  }

  /** The 31-bit number of section 5.3 of RFC 4226: four bytes at the offset, top bit dropped. */
  function DynamicTruncation(sum: Bytes): (v: nat)
    requires |sum| >= 20
    ensures v < 0x8000_0000
  {
    var offset := sum[|sum| - 1] % 16;
    Uint32(sum[offset..offset + 4]) % 0x8000_0000
  }

  function Word(a: nat, b: nat, c: nat, d: nat): nat {
    a * 0x100_0000 + b * 0x1_0000 + c * 0x100 + d
  }

  function Uint32(b: Bytes): nat
    requires |b| == 4
  {
    Word(b[0], b[1], b[2], b[3])
  }

  /** The one-time password of a counter: HOTP of RFC 4226 with a chosen hash. */
  function Otp(lib: Library, algorithm: string, key: Bytes, counter: nat, digits: nat): (s: string)
    requires Lawful(lib)
    ensures |s| == digits
    ensures forall c :: c in s ==> '0' <= c <= '9'
  {
    LastDigits(DynamicTruncation(lib.hmac(algorithm, key, BigEndian(counter, 8))), digits)
  }

  lemma ReducedLastDigits(v: nat, digits: nat)
    ensures Pow10(digits) > 0
    ensures LastDigits(v % Pow10(digits), digits) == LastDigits(v, digits)
  {
    if digits > 0 {
      var p := Pow10(digits - 1);
      ReducedLastDigits(v / 10, digits - 1);
      ModTen(v, p);
    }
  }

  lemma ModTen(v: nat, p: nat)
    requires p > 0
    ensures v % (10 * p) % 10 == v % 10
    ensures v % (10 * p) / 10 == v / 10 % p
  {
    var q, r := v / 10, v % 10;
    var k, m := q / p, q % p;
    assert v == 10 * (p * k + m) + r;
    assert 10 * (p * k + m) == (10 * p) * k + 10 * m;
    QuotientUnique(v, 10 * p, k, 10 * m + r);
    assert v % (10 * p) == 10 * m + r;
  }

  /** Section 5.3 of RFC 4226 over the sum: four bytes from where its last four bits point, without the top bit. */
  function Truncated(sum: Bytes): nat
    requires |sum| >= 20
  {
    var o := sum[|sum| - 1] % 16;
    var a: nat, b: nat, c: nat, d: nat := sum[o], sum[o + 1], sum[o + 2], sum[o + 3];
    a % 0x80 * 0x100_0000 + b * 0x1_0000 + c * 0x100 + d
  }

  /** The text writes the last digits of the number. */
  predicate Writes(text: string, v: nat, digits: nat) {
    Pow10(digits) > 0 && |text| == digits && AllDigits(text) && Number(text) == v % Pow10(digits)
  }

  lemma {:induction false} LastDigitsWrite(v: nat, digits: nat)
    ensures Writes(LastDigits(v, digits), v, digits)
  {
    ReducedLastDigits(v, digits);
    var text := LastDigits(v, digits);
    forall i | 0 <= i < |text| ensures '0' <= text[i] <= '9' { assert text[i] in text; }
    if digits > 0 {
      LastDigitsWrite(v / 10, digits - 1);
      assert text[..digits - 1] == LastDigits(v / 10, digits - 1);
      ModTen(v, Pow10(digits - 1));
    }
  }

  lemma WritesOnce(text: string, v: nat, digits: nat)
    ensures Writes(text, v, digits) <==> text == LastDigits(v, digits)
  {
    LastDigitsWrite(v, digits);
    if Writes(text, v, digits) { NumberInjective(text, LastDigits(v, digits)); }
  }

  lemma TruncatedIsDynamic(sum: Bytes)
    requires |sum| >= 20
    ensures Truncated(sum) == DynamicTruncation(sum) == MaskedWord(sum)
  {
    var o := sum[|sum| - 1] % 16;
    assert sum[o..o + 4] == [sum[o], sum[o + 1], sum[o + 2], sum[o + 3]];
    TopBitDropped(sum[o], sum[o + 1], sum[o + 2], sum[o + 3]);
  }

  // ---- internal/totp/totp.go ------------------------------------------------------------------

  /** The code for the instant `at`, in seconds; None is the invalid-secret error. */
  method Generate(lib: Library, cfg: Config, at: nat) returns (r: Option<Code>)
    requires Lawful(lib)
    requires DigitsOf(cfg) <= 9
    ensures r.Some? <==> lib.base32(cfg.secret).Some?
    ensures r.Some? ==> r.value == CodeAt(lib, cfg, lib.base32(cfg.secret).value, at)
  {
    var decoded := lib.base32(cfg.secret);
    if decoded.None? { return None; }
    var key := decoded.value;
    var period := cfg.period;
    if period <= 0 { period := DEFAULT_PERIOD; }
    var digits := cfg.digits;
    if digits <= 0 { digits := DEFAULT_DIGITS; }
    var counter := at / period;
    var algorithm := HashName(cfg.algorithm);
    var buf := CounterBuffer(counter);
    var sum := lib.hmac(algorithm, key, buf);

    PrintedCode(sum, digits);
    var code := ZeroPadded(MaskedWord(sum) % Pow10(digits), digits);
    assert code == Otp(lib, algorithm, key, counter, digits);
    var remaining := Remaining(period, at);
    r := Some(Code(code, period, remaining, digits));
  }

  /** The seconds left in the window, never 0. */
  method Remaining(period: nat, at: nat) returns (r: nat)
    requires period > 0
    ensures r == period - at % period
  {
    r := period - at % period;
    if r <= 0 { r := period; }
  }

  /** The loop of Generate that shifts the counter into an 8-byte buffer from the end. */
  method CounterBuffer(step: nat) returns (b: Bytes)
    ensures b == BigEndian(step, 8)
  {
    var counter := step;
    var buf := new byte[8](_ => 0);
    var i := 8;
    while i > 0
      invariant 0 <= i <= 8
      invariant counter == step / Pow256(8 - i)
      invariant forall k :: i <= k < 8 ==> buf[k] == step / Pow256(7 - k) % 256
    {
      i := i - 1;
      buf[i] := counter % 256;
      PowStep(step, 7 - i);
      counter := counter / 256;
    }
    b := buf[..];
  }

  /** The generator's truncation: the first byte is masked before the word is assembled. */
  function MaskedWord(sum: Bytes): nat
    requires |sum| >= 20
  {
    var offset := sum[|sum| - 1] % 16;
    Word(sum[offset] % 128, sum[offset + 1], sum[offset + 2], sum[offset + 3])
  }

  /** The masked bytes, reduced and zero-padded, print as the last digits of the truncated number. */
  lemma PrintedCode(sum: Bytes, digits: nat)
    requires |sum| >= 20 && digits >= 1
    ensures Pow10(digits) > 0
    ensures ZeroPadded(MaskedWord(sum) % Pow10(digits), digits) == LastDigits(DynamicTruncation(sum), digits)
  {
    var o := sum[|sum| - 1] % 16;
    assert sum[o..o + 4] == [sum[o], sum[o + 1], sum[o + 2], sum[o + 3]];
    TopBitDropped(sum[o], sum[o + 1], sum[o + 2], sum[o + 3]);
    var v := DynamicTruncation(sum);
    ReducedLastDigits(v, digits);
    ZeroPaddedIsLastDigits(v % Pow10(digits), digits);
  }

  /** Masking the first byte with 0x7f is masking the assembled word with 0x7fffffff. */
  lemma TopBitDropped(a: byte, b: byte, c: byte, d: byte)
    ensures Word(a % 128, b, c, d) == Word(a, b, c, d) % 0x8000_0000
  {
    assert a == a / 128 * 128 + a % 128;
  }

  /** What the generator answers for a decoded key. */
  function CodeAt(lib: Library, cfg: Config, key: Bytes, at: nat): Code
    requires Lawful(lib)
  {
    var period, digits := PeriodOf(cfg), DigitsOf(cfg);
    Code(Otp(lib, HashName(cfg.algorithm), key, at / period, digits), period, period - at % period, digits)
  }

  /**
   Which code, in terms of RFC 4226 and RFC 6238: the last digits of the truncated HMAC of the time step, under the
   named hash, with 30 seconds, six digits and SHA1 where the configuration does not say otherwise.
   */
  lemma CodeMeans(lib: Library, cfg: Config, key: Bytes, at: nat)
    requires Lawful(lib)
    ensures IsCodeAt(lib, cfg, key, at, CodeAt(lib, cfg, key, at))
  {
    SettingsMean(cfg);
    OtpWrites(lib, HashName(cfg.algorithm), key, at / PeriodOf(cfg), DigitsOf(cfg));
  }

  /** A setting that is not positive is the default. */
  function Set(value: int, fallback: nat): (r: nat)
    requires fallback > 0
    ensures r > 0
  {
    if value > 0 then value else fallback
  }

  ghost predicate IsCodeAt(lib: Library, cfg: Config, key: Bytes, at: nat, code: Code)
    requires Lawful(lib)
  {
    var period, digits := Set(cfg.period, 30), Set(cfg.digits, 6);
    && WritesCode(lib, NamedHash(cfg.algorithm), key, at / period, digits, code.code)
    && code.period == period && code.digits == digits && code.secondsRemaining == period - at % period
  }

  /** Two hashes can be asked for; any other name is the default. */
  function NamedHash(name: string): string { if name != "SHA256" && name != "SHA512" then "SHA1" else name }

  lemma SettingsMean(cfg: Config)
    ensures PeriodOf(cfg) == Set(cfg.period, 30) && DigitsOf(cfg) == Set(cfg.digits, 6)
    ensures HashName(cfg.algorithm) == NamedHash(cfg.algorithm)
  {
  }

  /** The text writes the last digits of the truncated HMAC of the time step. */
  ghost predicate WritesCode(lib: Library, algorithm: string, key: Bytes, step: nat, digits: nat, text: string)
    requires Lawful(lib)
  {
    Writes(text, Truncated(lib.hmac(algorithm, key, BigEndian(step, 8))), digits)
  }

  lemma OtpWrites(lib: Library, algorithm: string, key: Bytes, counter: nat, digits: nat)
    requires Lawful(lib)
    ensures WritesCode(lib, algorithm, key, counter, digits, Otp(lib, algorithm, key, counter, digits))
  {
    var sum := lib.hmac(algorithm, key, BigEndian(counter, 8));
    TruncatedIsDynamic(sum);
    LastDigitsWrite(DynamicTruncation(sum), digits);
  }

  /**
   SecondsRemaining lies in 1..period; the code is constant until then, has exactly the asked number of
   digits, and the instant `at + SecondsRemaining` is the first one of the next time step.
   */
  lemma WindowIsExact(lib: Library, cfg: Config, key: Bytes, at: nat)
    requires Lawful(lib)
    ensures var now := CodeAt(lib, cfg, key, at);
            && 1 <= now.secondsRemaining <= now.period
            && |now.code| == DigitsOf(cfg)
            && (at + now.secondsRemaining) / now.period == at / now.period + 1
            && forall t: nat :: at <= t < at + now.secondsRemaining ==>
                 && t / now.period == at / now.period
                 && CodeAt(lib, cfg, key, t).code == now.code
                 && t + CodeAt(lib, cfg, key, t).secondsRemaining == at + now.secondsRemaining
  {
    var p := PeriodOf(cfg);
    NextWindow(p, at);
    forall t: nat | at <= t < at + (p - at % p)
      ensures t / p == at / p && t % p == at % p + (t - at)
    {
      SameWindow(p, at, t);
    }
  }

  lemma NextWindow(p: nat, at: nat)
    requires p > 0
    ensures (at + (p - at % p)) / p == at / p + 1
    ensures 0 <= at % p < p
  {
    var k := at / p;
    assert p * (k + 1) == p * k + p;
    QuotientUnique(at + (p - at % p), p, k + 1, 0);
  }

  lemma SameWindow(p: nat, at: nat, t: nat)
    requires p > 0 && at <= t < at + (p - at % p)
    ensures t / p == at / p && t % p == at % p + (t - at)
  {
    QuotientUnique(t, p, at / p, at % p + (t - at));
  }

  // ---- internal/bitwarden/totp.go -------------------------------------------------------------

  /** The validator's own HOTP: SHA1, six digits. */
  function Hotp(lib: Library, key: Bytes, counter: nat): string
    requires Lawful(lib)
  {
    var sum := lib.hmac("SHA1", key, BigEndian(counter, 8));
    var offset := sum[|sum| - 1] % 16;
    ZeroPadded(Uint32(sum[offset..offset + 4]) % 0x8000_0000 % 1000000, 6)
  }

  /** Both implementations print the same code for the same counter. */
  lemma HotpIsOtp(lib: Library, key: Bytes, counter: nat)
    requires Lawful(lib)
    ensures Hotp(lib, key, counter) == Otp(lib, "SHA1", key, counter, 6)
    ensures |Hotp(lib, key, counter)| == 6 && Ascii(Hotp(lib, key, counter)) && Trimmed(Hotp(lib, key, counter))
  {
    var v := DynamicTruncation(lib.hmac("SHA1", key, BigEndian(counter, 8)));
    MillionIsPow10();
    ReducedLastDigits(v, 6);
    ZeroPaddedIsLastDigits(v % 1000000, 6);
    DigitsAreAscii(LastDigits(v, 6));
  }

  lemma MillionIsPow10()
    ensures Pow10(6) == 1000000
  {
    assert Pow10(3) == 1000;
  }

  lemma DigitsAreAscii(s: string)
    requires forall c :: c in s ==> '0' <= c <= '9'
    ensures Ascii(s) && Trimmed(s)
  {
    forall i | 0 <= i < |s| ensures '0' <= s[i] <= '9' { assert s[i] in s; }
  }

  /**
   The comparison without early exit: differences accumulate in one byte. The source's loop visits the start of
   each character of its first argument, which is every byte of the printed digits that it is called with.
   */
  method SubtleTotpEqual(a: Bytes, b: Bytes) returns (equal: bool)
    ensures equal <==> a == b
  {
    if |a| != |b| { return false; }
    var diff: byte := 0;
    for i := 0 to |a|
      invariant diff == 0 <==> a[..i] == b[..i]
    {
      XorBitsZero(a[i], b[i]);
      OrBitsZero(diff, XorByte(a[i], b[i]));
      diff := OrByte(diff, XorByte(a[i], b[i]));
      assert a[..i + 1] == a[..i] + [a[i]] && b[..i + 1] == b[..i] + [b[i]];
    }
    assert a[..|a|] == a && b[..|b|] == b;
    return diff == 0;
  }

  /** The validator accepts exactly the codes of the previous, the current and the next time step. */
  method ValidateTotp(lib: Library, secret: string, code: string, now: nat) returns (valid: bool)
    requires Lawful(lib)
    ensures valid <==> Accepted(lib, secret, code, now)
  {
    var trimmed := Trim(code);
    if |Utf8(trimmed)| != 6 {
      NotSixBytes(lib, trimmed);
      return false;
    }
    var decoded := lib.base32(Upper(secret));
    if decoded.None? { return false; }
    var key := decoded.value;
    valid := MatchesStep(lib, decoded.value, trimmed, now / 30);
  }

  ghost predicate CodeOfStep(lib: Library, key: Bytes, text: string, step: int)
    requires Lawful(lib)
  {
    step >= 0 && text == Hotp(lib, key, step)
  }

  /** The loop over the three candidate steps; a step before the epoch is skipped. */
  method MatchesStep(lib: Library, key: Bytes, trimmed: string, counter: nat) returns (valid: bool)
    requires Lawful(lib)
    ensures valid <==> exists step :: counter - 1 <= step <= counter + 1 && CodeOfStep(lib, key, trimmed, step)
  {
    for c := counter - 1 to counter + 2
      invariant forall step :: counter - 1 <= step < c ==> !CodeOfStep(lib, key, trimmed, step)
    {
      if c < 0 { continue; }
      var same := MatchesCode(lib, key, trimmed, c);
      if same { return true; }
    }
    return false;
  }

  method MatchesCode(lib: Library, key: Bytes, trimmed: string, c: nat) returns (same: bool)
    requires Lawful(lib)
    ensures same <==> CodeOfStep(lib, key, trimmed, c)
  {
    SameBytesSameCode(lib, key, c, trimmed);
    same := SubtleTotpEqual(Utf8(Hotp(lib, key, c)), Utf8(trimmed));
  }

  lemma SameBytesSameCode(lib: Library, key: Bytes, step: nat, text: string)
    requires Lawful(lib)
    ensures Utf8(Hotp(lib, key, step)) == Utf8(text) <==> text == Hotp(lib, key, step)
  {
    HotpIsOtp(lib, key, step);
    Utf8Faithful(text, Hotp(lib, key, step));
  }

  lemma NotSixBytes(lib: Library, trimmed: string)
    requires Lawful(lib) && |Utf8(trimmed)| != 6
    ensures forall key, step: nat :: trimmed != Hotp(lib, key, step)
  {
    forall key, step: nat ensures trimmed != Hotp(lib, key, step) {
      HotpIsOtp(lib, key, step);
      Utf8OfAscii(Hotp(lib, key, step));
    }
  }

  ghost predicate Accepted(lib: Library, secret: string, code: string, now: nat)
    requires Lawful(lib)
  {
    var key := lib.base32(Upper(secret));
    key.Some? && exists step :: now / 30 - 1 <= step <= now / 30 + 1 && CodeOfStep(lib, key.value, Trim(code), step)
  }

  ghost predicate DefaultSettings(cfg: Config) {
    HashName(cfg.algorithm) == "SHA1" && DigitsOf(cfg) == 6 && PeriodOf(cfg) == 30
  }

  lemma DefaultCode(lib: Library, cfg: Config, at: nat)
    requires Lawful(lib) && DefaultSettings(cfg) && lib.base32(cfg.secret).Some?
    ensures Upper(cfg.secret) == cfg.secret
    ensures CodeAt(lib, cfg, lib.base32(cfg.secret).value, at).code == Hotp(lib, lib.base32(cfg.secret).value, at / 30)
  {
    HotpIsOtp(lib, lib.base32(cfg.secret).value, at / 30);
  }

  /** With the default settings, what one implementation generates the other accepts within one step. */
  lemma GeneratedCodesAreAccepted(lib: Library, cfg: Config, at: nat, now: nat)
    requires Lawful(lib) && DefaultSettings(cfg) && lib.base32(cfg.secret).Some?
    requires -1 <= at / 30 - now / 30 <= 1
    ensures Accepted(lib, cfg.secret, CodeAt(lib, cfg, lib.base32(cfg.secret).value, at).code, now)
  {
    var step: nat := at / 30;
    DefaultCode(lib, cfg, at);
    HotpIsOtp(lib, lib.base32(cfg.secret).value, step);
    TrimFixpoint(Hotp(lib, lib.base32(cfg.secret).value, step));
    assert CodeOfStep(lib, lib.base32(cfg.secret).value, Hotp(lib, lib.base32(cfg.secret).value, step), step);
  }

  /** Conversely, an accepted code is the generator's code for some instant within one step. */
  lemma AcceptedCodesAreGenerated(lib: Library, cfg: Config, code: string, now: nat)
    requires Lawful(lib) && DefaultSettings(cfg) && lib.base32(cfg.secret).Some?
    requires Accepted(lib, cfg.secret, code, now)
    ensures exists at: nat :: -1 <= at / 30 - now / 30 <= 1
                           && Trim(code) == CodeAt(lib, cfg, lib.base32(cfg.secret).value, at).code
  {
    DefaultCode(lib, cfg, 0);
    var key := lib.base32(cfg.secret).value;
    var step :| now / 30 - 1 <= step <= now / 30 + 1 && CodeOfStep(lib, key, Trim(code), step);
    var at: nat := 30 * step;
    DefaultCode(lib, cfg, at);
    assert at / 30 == step;
  }

  /** The six digits of a time step under SHA1. */
  ghost predicate IsCodeOf(lib: Library, key: Bytes, text: string, step: nat)
    requires Lawful(lib)
  {
    WritesCode(lib, "SHA1", key, step, 6, text)
  }

  /**
   Which texts are accepted, without the generator: trimmed, the six digits of the time step before, of the current or
   of the next one, under the capitalised secret.
   */
  lemma AcceptedMeans(lib: Library, secret: string, code: string, now: nat)
    requires Lawful(lib)
    ensures Accepted(lib, secret, code, now) <==>
            && lib.base32(Upper(secret)).Some?
            && exists step: nat :: now / 30 - 1 <= step <= now / 30 + 1
                                   && IsCodeOf(lib, lib.base32(Upper(secret)).value, Trim(code), step)
  {
    if lib.base32(Upper(secret)).Some? {
      var key := lib.base32(Upper(secret)).value;
      forall step: nat ensures CodeOfStep(lib, key, Trim(code), step) <==> IsCodeOf(lib, key, Trim(code), step) {
        var sum := lib.hmac("SHA1", key, BigEndian(step, 8));
        HotpIsOtp(lib, key, step);
        TruncatedIsDynamic(sum);
        WritesOnce(Trim(code), DynamicTruncation(sum), 6);
      }
    }
  }
}
