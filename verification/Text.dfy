/** Strings as the Go standard library treats them: trimming, splitting, suffixes, order and decimals. */
module Text {
  datatype Option<+T> = None | Some(value: T)

  /** The white space of unicode.IsSpace. */
  predicate IsSpace(c: char) {
    var n := c as int;
    || 9 <= n <= 13 || n == 0x20 || n == 0x85 || n == 0xA0 || n == 0x1680 || 0x2000 <= n <= 0x200A
    || n == 0x2028 || n == 0x2029 || n == 0x202F || n == 0x205F || n == 0x3000
  }

  function TrimLeft(s: string): (r: string)
    ensures |r| <= |s|
    ensures r != "" ==> !IsSpace(r[0])
  {
    if s != "" && IsSpace(s[0]) then TrimLeft(s[1..]) else s
  }

  function TrimRight(s: string): (r: string)
    ensures |r| <= |s| && r == s[..|r|]
    ensures r != "" ==> !IsSpace(r[|r| - 1])
  {
    if s != "" && IsSpace(s[|s| - 1]) then TrimRight(s[..|s| - 1]) else s
  }

  function Trim(s: string): (r: string) {
    TrimRight(TrimLeft(s))
  }

  predicate Trimmed(s: string) {
    s == "" || (!IsSpace(s[0]) && !IsSpace(s[|s| - 1]))
  }

  /** Trimming lands on a trimmed string and leaves exactly the trimmed strings alone. */
  lemma TrimFixpoint(s: string)
    ensures Trimmed(Trim(s))
    ensures Trim(s) == s <==> Trimmed(s)
    ensures Trim(Trim(s)) == Trim(s)
  {
    var t := Trim(s);
    assert t == TrimLeft(s)[..|t|];
    assert Trimmed(t);
    assert TrimLeft(t) == t;
  }

  predicate AllSpace(s: string) { forall i :: 0 <= i < |s| ==> IsSpace(s[i]) }

  /** What trimming takes away is white space at the two ends. */
  lemma TrimTakesSpace(s: string) returns (front: string, back: string)
    ensures s == front + Trim(s) + back && AllSpace(front) && AllSpace(back)
  {
    front := LeftTaken(s);
    back := RightTaken(TrimLeft(s));
  }

  lemma {:induction false} LeftTaken(s: string) returns (front: string)
    ensures s == front + TrimLeft(s) && AllSpace(front)
  {
    if s != "" && IsSpace(s[0]) {
      var rest := LeftTaken(s[1..]);
      front := [s[0]] + rest;
      assert s == [s[0]] + s[1..];
    } else {
      front := "";
    }
  }

  lemma {:induction false} RightTaken(s: string) returns (back: string)
    ensures s == TrimRight(s) + back && AllSpace(back)
    decreases |s|
  {
    if s != "" && IsSpace(s[|s| - 1]) {
      var rest := RightTaken(s[..|s| - 1]);
      back := rest + [s[|s| - 1]];
      assert s == s[..|s| - 1] + [s[|s| - 1]];
    } else {
      back := "";
    }
  }

  function LowerChar(c: char): char {
    if 'A' <= c <= 'Z' then (c as int + 32) as char else c
  }

  /** ASCII case folding. */
  function Lower(s: string): (r: string)
    ensures |r| == |s|
    ensures forall i :: 0 <= i < |s| ==> r[i] == LowerChar(s[i])
  {
    seq(|s|, i requires 0 <= i < |s| => LowerChar(s[i]))
  }

  function UpperChar(c: char): char {
    if 'a' <= c <= 'z' then (c as int - 32) as char else c
  }

  function Upper(s: string): (r: string)
    ensures |r| == |s|
    ensures forall i :: 0 <= i < |s| ==> r[i] == UpperChar(s[i])
  {
    seq(|s|, i requires 0 <= i < |s| => UpperChar(s[i]))
  }

  predicate HasSuffix(s: string, suffix: string) {
    |suffix| <= |s| && s[|s| - |suffix|..] == suffix
  }

  // ---- split and join -------------------------------------------------------------------------

  /** The pieces of `s` between separators; there is always at least one. */
  function Split(s: string, sep: char): (parts: seq<string>)
    ensures |parts| >= 1
    ensures forall p :: p in parts ==> sep !in p
  {
    if s == "" then [""]
    else
      var rest := Split(s[1..], sep);
      if s[0] == sep then [""] + rest
      else [[s[0]] + rest[0]] + rest[1..]
  }

  function Join(parts: seq<string>, sep: char): string {
    if parts == [] then ""
    else if |parts| == 1 then parts[0]
    else parts[0] + [sep] + Join(parts[1..], sep)
  }

  lemma {:induction false} SplitWithout(s: string, sep: char)
    requires sep !in s
    ensures Split(s, sep) == [s]
  {
    if s != "" {
      SplitWithout(s[1..], sep);
      assert [s[0]] + s[1..] == s;
    }
  }

  lemma {:induction false} SplitConcat(a: string, b: string, sep: char)
    ensures Split(a + [sep] + b, sep) == Split(a, sep) + Split(b, sep)
  {
    if a == "" {
      assert ([sep] + b)[1..] == b;
      assert a + [sep] + b == [sep] + b;
    } else {
      assert (a + [sep] + b)[1..] == a[1..] + [sep] + b;
      SplitConcat(a[1..], b, sep);
    }
  }

  lemma {:induction false} SplitJoin(parts: seq<string>, sep: char)
    requires |parts| >= 1 && forall p :: p in parts ==> sep !in p
    ensures Split(Join(parts, sep), sep) == parts
  {
    SplitWithout(parts[0], sep);
    if |parts| > 1 {
      SplitJoin(parts[1..], sep);
      SplitConcat(parts[0], Join(parts[1..], sep), sep);
    }
  }

  lemma {:induction false} JoinSplit(s: string, sep: char)
    ensures Join(Split(s, sep), sep) == s
  {
    if s != "" {
      JoinSplit(s[1..], sep);
      var rest := Split(s[1..], sep);
      if s[0] != sep && |rest| > 1 {
        assert ([[s[0]] + rest[0]] + rest[1..])[1..] == rest[1..];
      }
    }
  }

  // ---- order ----------------------------------------------------------------------------------

  /** Byte-wise string order, as Go's `<`. */
  predicate Less(a: string, b: string) {
    b != "" && (a == "" || a[0] < b[0] || (a[0] == b[0] && Less(a[1..], b[1..])))
  }

  lemma {:induction false} LessIrreflexive(a: string)
    ensures !Less(a, a)
  {
    if a != "" { LessIrreflexive(a[1..]); }
  }

  lemma {:induction false} LessTotal(a: string, b: string)
    ensures Less(a, b) || Less(b, a) || a == b
    ensures !(Less(a, b) && Less(b, a))
    ensures !Less(a, a)
  {
    LessIrreflexive(a);
    if a != "" && b != "" {
      LessTotal(a[1..], b[1..]);
      if a[0] == b[0] && a[1..] == b[1..] {
        assert a == [a[0]] + a[1..] && b == [b[0]] + b[1..];
      }
    }
  }

  lemma LessTransitive(a: string, b: string, c: string)
    requires Less(a, b) && Less(b, c)
    ensures Less(a, c)
  {
    if a != "" && a[0] == b[0] && b[0] == c[0] { LessTransitive(a[1..], b[1..], c[1..]); }
  }

  /** At the first difference the smaller character decides; a proper prefix comes first. */
  lemma {:induction false} LessAtFirstDifference(a: string, b: string, i: nat)
    requires i <= |a| && i <= |b| && a[..i] == b[..i] && (i < |a| && i < |b| ==> a[i] != b[i])
    requires i < |a| || i < |b|
    ensures Less(a, b) <==> i == |a| || (i < |b| && a[i] < b[i])
    decreases i
  {
    if i > 0 {
      assert a[0] == a[..i][0] && b[0] == b[..i][0];
      assert a[1..][..i - 1] == a[..i][1..] && b[1..][..i - 1] == b[..i][1..];
      LessAtFirstDifference(a[1..], b[1..], i - 1);
    }
  }

  // ---- decimal printing -----------------------------------------------------------------------

  function Pow10(n: nat): nat {
    if n == 0 then 1 else 10 * Pow10(n - 1)
  }

  function Digit(d: nat): char
    requires d < 10
  {
    (48 + d) as char
  }

  function Decimal(v: nat): (s: string)
    ensures |s| >= 1
  {
    if v < 10 then [Digit(v)] else Decimal(v / 10) + [Digit(v % 10)]
  }

  function Zeros(n: nat): (s: string)
    ensures |s| == n
  {
    if n == 0 then "" else "0" + Zeros(n - 1)
  }

  /** fmt.Sprintf("%0*d", width, v): at least `width` characters, filled with zeros on the left. */
  function ZeroPadded(v: nat, width: nat): string {
    var d := Decimal(v);
    if |d| < width then Zeros(width - |d|) + d else d
  }

  /** The last `width` decimal digits of `v`. */
  function LastDigits(v: nat, width: nat): (s: string)
    ensures |s| == width
    ensures forall c :: c in s ==> '0' <= c <= '9'
  {
    if width == 0 then "" else LastDigits(v / 10, width - 1) + [Digit(v % 10)]
  }

  lemma {:induction false} LastDigitsOfZero(width: nat)
    ensures LastDigits(0, width) == Zeros(width)
  {
    if width > 0 {
      LastDigitsOfZero(width - 1);
      ZerosSnoc(width - 1);
    }
  }

  lemma ZerosSnoc(n: nat)
    ensures Zeros(n) + "0" == Zeros(n + 1)
  {
    if n > 0 {
      ZerosSnoc(n - 1);
      assert "0" + (Zeros(n - 1) + "0") == ("0" + Zeros(n - 1)) + "0";
    }
  }

  /** A value below 10^width prints as exactly its `width` decimal digits. */
  lemma {:induction false} ZeroPaddedIsLastDigits(v: nat, width: nat)
    requires 1 <= width && v < Pow10(width)
    ensures ZeroPadded(v, width) == LastDigits(v, width)
  {
    if v < 10 {
      LastDigitsOfZero(width - 1);
    } else {
      ZeroPaddedIsLastDigits(v / 10, width - 1);
      var d := Decimal(v / 10);
      if |d| < width - 1 {
        assert Zeros(width - 1 - |d|) + d + [Digit(v % 10)] == Zeros(width - 1 - |d|) + (d + [Digit(v % 10)]);
      }
    }
  }

  lemma {:induction false} LastDigitsInjective(v: nat, w: nat, width: nat)
    requires v < Pow10(width) && w < Pow10(width)
    requires LastDigits(v, width) == LastDigits(w, width)
    ensures v == w
  {
    if width > 0 {
      var a, b := LastDigits(v / 10, width - 1), LastDigits(w / 10, width - 1);
      assert LastDigits(v, width)[..width - 1] == a && LastDigits(w, width)[..width - 1] == b;
      assert LastDigits(v, width)[width - 1] == LastDigits(w, width)[width - 1];
      LastDigitsInjective(v / 10, w / 10, width - 1);
    }
  }

  predicate AllDigits(s: string) { forall i :: 0 <= i < |s| ==> '0' <= s[i] <= '9' }

  /** The number that decimal digits write. */
  function Number(s: string): nat
    requires AllDigits(s)
  {
    if s == "" then 0 else 10 * Number(s[..|s| - 1]) + (s[|s| - 1] as int - 48)
  }

  lemma {:induction false} NumberBelow(s: string)
    requires AllDigits(s)
    ensures Number(s) < Pow10(|s|)
    decreases |s|
  {
    if s != "" { NumberBelow(s[..|s| - 1]); }
  }

  /** Digits of one length write different numbers. */
  lemma {:induction false} NumberInjective(a: string, b: string)
    requires AllDigits(a) && AllDigits(b) && |a| == |b| && Number(a) == Number(b)
    ensures a == b
    decreases |a|
  {
    if a != "" {
      NumberInjective(a[..|a| - 1], b[..|b| - 1]);
      assert a == a[..|a| - 1] + [a[|a| - 1]] && b == b[..|b| - 1] + [b[|b| - 1]];
    }
  }
}
