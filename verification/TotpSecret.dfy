/**
 Pasted TOTP secrets (`Parse` and `normalizeSecret` of internal/totp/totp.go), up to the codes they give.
 Reading a URI into its parts is library code: the parts are the input.
 */
module TotpSecret {
  import opened Seqs
  import opened Text
  import opened Totp

  /** A numeric query parameter. */
  datatype Field = Absent | NotANumber | Number(n: int)

  datatype Input =
    | Plain(text: string)
    | Uri(kind: string, secret: string, digits: Field, period: Field, algorithm: string)

  predicate IsSeparator(c: char) { c == ' ' || c == '-' || c == '=' }

  function Kept(): char -> bool { (c: char) => !IsSeparator(c) }

  function Cleaned(secret: string): string { Filter(Upper(Trim(secret)), Kept()) }

  function NormalizedSecret(lib: Library, secret: string): Option<string> {
    var cleaned := Cleaned(secret);
    if cleaned == "" || lib.base32(cleaned).None? then None else Some(cleaned)
  }

  predicate Known(algorithm: string) { algorithm == "SHA1" || algorithm == "SHA256" || algorithm == "SHA512" }

  function Parsed(lib: Library, input: Input): Option<Config> {
    match input
    case Plain(text) =>
      (match NormalizedSecret(lib, Trim(text))
       case None => None
       case Some(secret) => Some(Config(secret, DEFAULT_DIGITS, DEFAULT_PERIOD, "SHA1")))
    case Uri(kind, secret, digits, period, algorithm) =>
      var name := if algorithm == "" then "SHA1" else Upper(algorithm);
      if Lower(kind) != "totp" then None
      else if digits.NotANumber? || (digits.Number? && !(6 <= digits.n <= 10)) then None
      else if period.NotANumber? || (period.Number? && period.n <= 0) then None
      else if !Known(name) then None
      else
        match NormalizedSecret(lib, secret)
        case None => None
        case Some(cleaned) =>
          Some(Config(cleaned, if digits.Number? then digits.n else DEFAULT_DIGITS,
                      if period.Number? then period.n else DEFAULT_PERIOD, name))
  }

  /** `Parse`, check by check. */
  method Parse(lib: Library, input: Input) returns (r: Option<Config>)
    ensures r == Parsed(lib, input)
  {
    var cfg := Config("", DEFAULT_DIGITS, DEFAULT_PERIOD, "SHA1");
    match input {
      case Plain(text) =>
        var raw := Trim(text);
        cfg := cfg.(secret := raw);
      case Uri(kind, secret, digits, period, algorithm) =>
        if Lower(kind) != "totp" { return None; }
        cfg := cfg.(secret := secret);
        if digits != Absent {
          if digits.NotANumber? || digits.n < 6 || digits.n > 10 { return None; }
          cfg := cfg.(digits := digits.n);
        }
        if period != Absent {
          if period.NotANumber? || period.n <= 0 { return None; }
          cfg := cfg.(period := period.n);
        }
        if Upper(algorithm) != "" { cfg := cfg.(algorithm := Upper(algorithm)); }
    }
    var normalized := NormalizedSecret(lib, cfg.secret);
    if normalized.None? { return None; }
    cfg := cfg.(secret := normalized.value);
    if !Known(cfg.algorithm) { return None; }
    return Some(cfg);
  }

  /** What was parsed is within the generator's bounds, so that none of its defaults applies, and has a key. */
  lemma ParsedIsUsable(lib: Library, input: Input)
    requires Parsed(lib, input).Some?
    ensures var cfg := Parsed(lib, input).value;
            && lib.base32(cfg.secret).Some? && 6 <= cfg.digits <= 10 && DigitsOf(cfg) == cfg.digits
            && cfg.period > 0 && PeriodOf(cfg) == cfg.period && HashName(cfg.algorithm) == cfg.algorithm
  {
  }

  /** A number that is absent, or in these bounds. */
  predicate Fine(f: Field, low: int, high: int) { f.Absent? || (f.Number? && low <= f.n <= high) }

  /** The letters of a secret, in order: capitals, without blanks, dashes and equals signs. */
  predicate IsClean(s: string) {
    forall i :: 0 <= i < |s| ==> s[i] != ' ' && s[i] != '-' && s[i] != '=' && !('a' <= s[i] <= 'z')
  }

  lemma {:induction false} KeptIsClean(s: string)
    ensures IsClean(Filter(Upper(s), Kept()))
    ensures IsClean(s) ==> Filter(Upper(s), Kept()) == s
  {
    if s != "" {
      KeptIsClean(s[1..]);
      assert Upper(s)[1..] == Upper(s[1..]);
      assert s == [s[0]] + s[1..];
    }
  }

  /**
   A secret is taken exactly when something readable is left of it; what is left is clean, and of a clean secret
   everything is.
   */
  lemma SecretMeans(lib: Library, secret: string)
    ensures var r := NormalizedSecret(lib, secret);
            && (r.Some? ==> r.value != "" && IsClean(r.value) && lib.base32(r.value).Some?)
            && (IsClean(secret) && Trimmed(secret) ==>
                  (r == if secret != "" && lib.base32(secret).Some? then Some(secret) else None))
  {
    KeptIsClean(Trim(secret));
    TrimFixpoint(secret);
  }

  /**
   Exactly which URIs are accepted, and that the configuration then carries their values: six digits, 30 seconds and
   SHA1 stand only where the URI is silent.
   */
  lemma ParsedCarriesValues(lib: Library, input: Input)
    requires input.Uri?
    ensures var r, secret := Parsed(lib, input), NormalizedSecret(lib, input.secret);
            && (r.Some? <==>
                && Lower(input.kind) == "totp" && secret.Some?
                && Fine(input.digits, 6, 10)
                && (input.period.Absent? || (input.period.Number? && input.period.n >= 1))
                && (input.algorithm == "" || Upper(input.algorithm) in {"SHA1", "SHA256", "SHA512"}))
            && (r.Some? ==>
                  && r.value.secret == secret.value
                  && r.value.digits == (if input.digits.Number? then input.digits.n else 6)
                  && r.value.period == (if input.period.Number? then input.period.n else 30)
                  && r.value.algorithm == (if input.algorithm != "" then Upper(input.algorithm) else "SHA1"))
  {
  }

  /** A pasted secret without a URI always has the default settings. */
  lemma PlainHasDefaults(lib: Library, text: string)
    ensures Parsed(lib, Plain(text))
            == match NormalizedSecret(lib, text)
               case None => None
               case Some(secret) => Some(Config(secret, 6, 30, "SHA1"))
  {
    TrimFixpoint(text);
  }

  // ---- formatting -----------------------------------------------------------------------------

  lemma {:induction false} TrimPadded(s: string)
    requires Trimmed(s)
    ensures Trim(" " + s) == s && Trim(s + " ") == s
  {
    TrimFixpoint(s);
    assert (" " + s)[1..] == s && (s + " ")[..|s|] == s;
    if s != "" {
      assert TrimLeft(s) == s && TrimLeft(s + " ") == s + " ";
      assert TrimRight(s + " ") == TrimRight(s);
    }
  }

  lemma CleanedParts(a: string, b: string)
    ensures Filter(Upper(a + b), Kept()) == Filter(Upper(a), Kept()) + Filter(Upper(b), Kept())
  {
    assert Upper(a + b) == Upper(a) + Upper(b);
    FilterConcat(Upper(a), Upper(b), Kept());
  }

  lemma SeparatorVanishes(c: char)
    requires IsSeparator(c)
    ensures Filter(Upper([c]), Kept()) == ""
  {
    assert Upper([c]) == [c];
  }

  lemma InsertTrims(s: string, i: nat, c: char)
    requires Trimmed(s) && i <= |s| && IsSeparator(c)
    ensures var t := s[..i] + [c] + s[i..]; Trim(t) == t || Trim(t) == s
  {
    var t := s[..i] + [c] + s[i..];
    TrimFixpoint(t);
    TrimPadded(s);
    if c == ' ' {
      if i == 0 { assert t == " " + s; }
      if i == |s| { assert t == s + " "; }
    }
  }

  lemma SeparatorFiltered(a: string, c: char, b: string)
    requires IsSeparator(c)
    ensures Filter(Upper(a + [c] + b), Kept()) == Filter(Upper(a + b), Kept())
  {
    CleanedParts(a + [c], b);
    CleanedParts(a, [c]);
    CleanedParts(a, b);
    SeparatorVanishes(c);
  }

  lemma SeparatorIsCleaned(s: string, i: nat, c: char)
    requires Trimmed(s) && i <= |s| && IsSeparator(c)
    ensures Cleaned(s[..i] + [c] + s[i..]) == Cleaned(s)
  {
    SeparatorFiltered(s[..i], c, s[i..]);
    assert s[..i] + s[i..] == s;
    InsertTrims(s, i, c);
    TrimFixpoint(s);
  }

  /** A separator put anywhere into a secret, or small letters, change nothing. */
  lemma FormattingIsIgnored(lib: Library, s: string, i: nat, c: char)
    requires Trimmed(s) && i <= |s| && IsSeparator(c)
    ensures NormalizedSecret(lib, s[..i] + [c] + s[i..]) == NormalizedSecret(lib, s)
    ensures NormalizedSecret(lib, Lower(s)) == NormalizedSecret(lib, s)
  {
    SeparatorIsCleaned(s, i, c);
    LowerStaysTrimmed(s);
    LowerIsCleaned(s);
  }

  lemma LowerIsCleaned(s: string)
    requires Trim(s) == s && Trim(Lower(s)) == Lower(s)
    ensures Cleaned(Lower(s)) == Cleaned(s)
  {
    assert Upper(Lower(s)) == Upper(s);
  }

  lemma LowerStaysTrimmed(s: string)
    requires Trimmed(s)
    ensures Trim(Lower(s)) == Lower(s) && Trim(s) == s
  {
    TrimFixpoint(s);
    TrimFixpoint(Lower(s));
  }

  /** A pasted secret without settings gives codes that the other implementation accepts within one step. */
  lemma PastedSecretAgrees(lib: Library, text: string, at: nat, now: nat)
    requires Lawful(lib) && Parsed(lib, Plain(text)).Some? && -1 <= at / 30 - now / 30 <= 1
    ensures var cfg := Parsed(lib, Plain(text)).value;
            lib.base32(cfg.secret).Some?
            && Accepted(lib, cfg.secret, CodeAt(lib, cfg, lib.base32(cfg.secret).value, at).code, now)
  {
    GeneratedCodesAreAccepted(lib, Parsed(lib, Plain(text)).value, at, now);
  }
}
