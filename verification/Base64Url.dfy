/** base64.RawURLEncoding: the unpadded URL-safe alphabet of section 5 of RFC 4648. */
module Base64Url {
  import opened Text
  import opened Bytes

  type sextet = n: int | 0 <= n < 64

  function SextetChar(n: sextet): char {
    if n < 26 then (65 + n) as char
    else if n < 52 then (71 + n) as char
    else if n < 62 then (n - 4) as char
    else if n == 62 then '-' else '_'
  }

  function CharSextet(c: char): Option<sextet> {
    if 'A' <= c <= 'Z' then Some(c as int - 65)
    else if 'a' <= c <= 'z' then Some(c as int - 71)
    else if '0' <= c <= '9' then Some(c as int + 4)
    else if c == '-' then Some(62)
    else if c == '_' then Some(63)
    else None
  }

  predicate IsAlphabet(c: char) { CharSextet(c).Some? }

  lemma AlphabetRoundTrip(n: sextet)
    ensures CharSextet(SextetChar(n)) == Some(n)
  {
  }

  const CAPITALS := "ABCDEFGHIJKLMNOPQRSTUVWXYZ"
  const SMALL := "abcdefghijklmnopqrstuvwxyz"
  const OTHERS := "0123456789-_"
  const ALPHABET := CAPITALS + SMALL + OTHERS

  /** Table 2 of RFC 4648. */
  lemma SextetCharMeans(n: sextet)
    ensures |ALPHABET| == 64 && SextetChar(n) == ALPHABET[n]
  {
    if n < 26 {
      CapitalAt(n);
    } else if n < 52 {
      SmallAt(n - 26);
    } else if n < 62 {
      assert OTHERS[n - 52] == (n - 4) as char;
    }
  }

  lemma CapitalAt(n: nat)
    requires n < 26
    ensures CAPITALS[n] == (65 + n) as char
  {
  }

  lemma SmallAt(n: nat)
    requires n < 26
    ensures SMALL[n] == (97 + n) as char
  {
  }

  // ---- sextets --------------------------------------------------------------------------------

  /** Three bytes are four sextets; a last group of one or two bytes is two or three. */
  function ToSextets(b: Bytes): (s: seq<sextet>) {
    if |b| == 0 then []
    else if |b| == 1 then [b[0] / 4, b[0] % 4 * 16]
    else if |b| == 2 then [b[0] / 4, b[0] % 4 * 16 + b[1] / 16, b[1] % 16 * 4]
    else [b[0] / 4, b[0] % 4 * 16 + b[1] / 16, b[1] % 16 * 4 + b[2] / 64, b[2] % 64] + ToSextets(b[3..])
  }

  // The three bytes of a group of four sextets.
  function Byte0(a: nat, b: nat): (r: nat)
    requires a < 64 && b < 64
    ensures r < 256
  { a * 4 + b / 16 }

  function Byte1(b: nat, c: nat): (r: nat)
    requires b < 64 && c < 64
    ensures r < 256
  { b % 16 * 16 + c / 4 }

  function Byte2(c: nat, d: nat): (r: nat)
    requires c < 64 && d < 64
    ensures r < 256
  { c % 4 * 64 + d }

  /** Left-over bits of a short last group are ignored; a single left-over sextet is an error. */
  function FromSextets(s: seq<sextet>): Option<Bytes> {
    if |s| == 0 then Some([])
    else if |s| == 1 then None
    else if |s| == 2 then Some([Byte0(s[0], s[1])])
    else if |s| == 3 then Some([Byte0(s[0], s[1]), Byte1(s[1], s[2])])
    else
      match FromSextets(s[4..])
      case None => None
      case Some(rest) => Some([Byte0(s[0], s[1]), Byte1(s[1], s[2]), Byte2(s[2], s[3])] + rest)
  }

  lemma GroupRoundTrip(a: byte, b: byte, c: byte)
    ensures Byte0(a / 4, a % 4 * 16 + b / 16) == a
    ensures Byte1(a % 4 * 16 + b / 16, b % 16 * 4 + c / 64) == b
    ensures Byte2(b % 16 * 4 + c / 64, c % 64) == c
  {
  }

  lemma OneByte(x: byte)
    ensures FromSextets(ToSextets([x])) == Some([x])
  {
    GroupRoundTrip(x, 0, 0);
    assert ToSextets([x]) == [x / 4, x % 4 * 16];
  }

  lemma TwoBytes(x: byte, y: byte)
    ensures FromSextets(ToSextets([x, y])) == Some([x, y])
  {
    GroupRoundTrip(x, y, 0);
    var s: seq<sextet> := [x / 4, x % 4 * 16 + y / 16, y % 16 * 4];
    assert ToSextets([x, y]) == s;
    assert Byte0(s[0], s[1]) == x && Byte1(s[1], s[2]) == y;
  }

  lemma {:induction false} SextetsRoundTrip(b: Bytes)
    ensures FromSextets(ToSextets(b)) == Some(b)
  {
    if |b| == 1 {
      OneByte(b[0]);
      assert b == [b[0]];
    } else if |b| == 2 {
      TwoBytes(b[0], b[1]);
      assert b == [b[0], b[1]];
    } else if |b| >= 3 {
      SextetsRoundTrip(b[3..]);
      var s := ToSextets(b);
      assert s[4..] == ToSextets(b[3..]);
      FirstGroup(b);
      assert b == [b[0], b[1], b[2]] + b[3..];
    }
  }

  lemma FirstGroup(b: Bytes)
    requires |b| >= 3
    ensures var s := ToSextets(b);
            |s| >= 4 && Byte0(s[0], s[1]) == b[0] && Byte1(s[1], s[2]) == b[1] && Byte2(s[2], s[3]) == b[2]
  {
    GroupRoundTrip(b[0], b[1], b[2]);
  }

  /** Three bytes and their four sextets write the same 24-bit number; a short group is filled with zero bits. */
  lemma GroupMeans(b: Bytes)
    requires b != []
    ensures var s := ToSextets(b);
            if |b| == 1 then |s| == 2 && Four(0, 0, s[0], s[1]) == Three(0, 0, b[0]) * 0x10
            else if |b| == 2 then |s| == 3 && Four(0, s[0], s[1], s[2]) == Three(0, b[0], b[1]) * 4
            else
              && |s| >= 4 && s[4..] == ToSextets(b[3..])
              && Four(s[0], s[1], s[2], s[3]) == Three(b[0], b[1], b[2])
  {
  }

  function Four(a: nat, b: nat, c: nat, d: nat): nat { a * 0x4_0000 + b * 0x1000 + c * 0x40 + d }

  function Three(a: nat, b: nat, c: nat): nat { a * 0x1_0000 + b * 0x100 + c }

  // ---- text -----------------------------------------------------------------------------------

  function Chars(s: seq<sextet>): (r: string)
    ensures |r| == |s|
    ensures forall i :: 0 <= i < |s| ==> r[i] == SextetChar(s[i])
  {
    seq(|s|, i requires 0 <= i < |s| => SextetChar(s[i]))
  }

  /** The sextets of a text; line breaks are skipped, any other foreign character is an error. */
  function Read(s: string): Option<seq<sextet>> {
    if s == "" then Some([])
    else if s[0] == '\n' || s[0] == '\r' then Read(s[1..])
    else
      var rest := Read(s[1..]);
      if CharSextet(s[0]).Some? && rest.Some? then Some([CharSextet(s[0]).value] + rest.value) else None
  }

  function Encode(b: Bytes): string {
    Chars(ToSextets(b))
  }

  function Decode(s: string): Option<Bytes> {
    match Read(s)
    case None => None
    case Some(sextets) => FromSextets(sextets)
  }

  lemma {:induction false} ReadChars(s: seq<sextet>)
    ensures Read(Chars(s)) == Some(s)
  {
    if s != [] {
      AlphabetRoundTrip(s[0]);
      ReadChars(s[1..]);
      assert s == [s[0]] + s[1..];
      assert Chars(s)[1..] == Chars(s[1..]);
    }
  }

  /** Decoding undoes encoding, for byte strings of every length. */
  lemma DecodeEncode(b: Bytes)
    ensures Decode(Encode(b)) == Some(b)
  {
    ReadChars(ToSextets(b));
    SextetsRoundTrip(b);
  }

  /** Anything but alphabet characters and line breaks makes a text unreadable. */
  lemma {:induction false} ReadsAlphabetOnly(s: string)
    ensures Read(s).Some? <==> forall i :: 0 <= i < |s| ==> IsAlphabet(s[i]) || s[i] == '\n' || s[i] == '\r'
  {
    if s != "" {
      ReadsAlphabetOnly(s[1..]);
      assert forall i :: 0 < i < |s| ==> s[i] == s[1..][i - 1];
    }
  }

  /** An encoding is made of alphabet characters only; in particular it never holds a dot. */
  lemma EncodeAlphabet(b: Bytes)
    ensures forall c :: c in Encode(b) ==> IsAlphabet(c)
    ensures '.' !in Encode(b)
  {
    forall i | 0 <= i < |Encode(b)| ensures IsAlphabet(Encode(b)[i]) {
      AlphabetRoundTrip(ToSextets(b)[i]);
    }
  }
}
