/** The password generator of internal/password/password.go, over an explicit stream of random draws. */
module Password {
  import opened Seqs
  import opened Shuffle

  const LOWER := "abcdefghijklmnopqrstuvwxyz"
  const UPPER := "ABCDEFGHIJKLMNOPQRSTUVWXYZ"
  const DIGITS := "0123456789"
  const SYMBOLS := "!@#$%^&*()-_=+[]{};:,.?/"
  const AMBIGUOUS := "il1IoO0"
  const MAX_LENGTH := 256
  const MIN_LENGTH := 4

  datatype Options = Options(length: int, lower: bool, upper: bool, digits: bool, symbols: bool, excludeAmbiguous: bool)
  // Two more error branches of the source are dead: the length is at least the four classes, and no class is empty.
  datatype Error = TooShort | TooLong | NoClass | RandomFailed
  datatype Result<+T> = Success(value: T) | Failure(error: Error)

  /** rand.Int over a source that yields the given numbers and then fails. */
  class RandomSource {
    var draws: seq<nat>

    constructor (numbers: seq<nat>)
      ensures draws == numbers
    {
      draws := numbers;
    }

    /** A number below `n`. */
    method Int(n: nat) returns (r: Result<nat>)
      requires n > 0
      modifies this
      ensures old(draws) == [] ==> r == Failure(RandomFailed) && draws == []
      ensures old(draws) != [] ==> r == Success(old(draws)[0] % n) && draws == old(draws)[1..]
    {
      if draws == [] { return Failure(RandomFailed); }
      r := Success(draws[0] % n);
      draws := draws[1..];
    }
  }

  // ---- classes --------------------------------------------------------------------------------

  function NotAmbiguous(): char -> bool {
    c => c !in AMBIGUOUS
  }

  function ClassOf(characters: string, excludeAmbiguous: bool): string {
    if excludeAmbiguous then Filter(characters, NotAmbiguous()) else characters
  }

  method Class(characters: string, excludeAmbiguous: bool) returns (r: string)
    ensures r == ClassOf(characters, excludeAmbiguous)
  {
    if !excludeAmbiguous { return characters; }
    r := "";
    for i := 0 to |characters|
      invariant r == Filter(characters[..i], NotAmbiguous())
    {
      FilterSnoc(characters, i, NotAmbiguous());
      if characters[i] !in AMBIGUOUS { r := r + [characters[i]]; }
    }
    assert characters[..|characters|] == characters;
  }

  datatype CharClass = LowerCase | UpperCase | Digit | Symbol

  function CharsOf(c: CharClass): string {
    match c
    case LowerCase => LOWER
    case UpperCase => UPPER
    case Digit => DIGITS
    case Symbol => SYMBOLS
  }

  /** The characters drawn for a class; symbols are never thinned out. */
  function PoolOf(c: CharClass, excludeAmbiguous: bool): string {
    ClassOf(CharsOf(c), excludeAmbiguous && c != Symbol)
  }

  function Selected(o: Options): (classes: seq<CharClass>)
    ensures |classes| <= 4
    ensures forall j, k :: 0 <= j < k < |classes| ==> classes[j] != classes[k]
    ensures o.lower || o.upper || o.digits || o.symbols <==> classes != []
  {
    (if o.lower then [LowerCase] else []) + (if o.upper then [UpperCase] else [])
    + (if o.digits then [Digit] else []) + (if o.symbols then [Symbol] else [])
  }

  function PoolsOf(classes: seq<CharClass>, excludeAmbiguous: bool): (pools: seq<string>)
    ensures |pools| == |classes|
    ensures forall k :: 0 <= k < |pools| ==> pools[k] == PoolOf(classes[k], excludeAmbiguous)
  {
    seq(|classes|, k requires 0 <= k < |classes| => PoolOf(classes[k], excludeAmbiguous))
  }

  /** One pool per selected class, in the order of the options. */
  function Pools(o: Options): (pools: seq<string>)
    ensures |pools| <= 4
  {
    PoolsOf(Selected(o), o.excludeAmbiguous)
  }

  function Concat(pools: seq<string>): string {
    if pools == [] then "" else pools[0] + Concat(pools[1..])
  }

  lemma {:induction false} InConcat(pools: seq<string>, c: char)
    ensures c in Concat(pools) <==> exists k :: 0 <= k < |pools| && c in pools[k]
  {
    if pools != [] {
      InConcat(pools[1..], c);
      if k :| 0 <= k < |pools| && c in pools[k] {
        if k > 0 { assert c in pools[1..][k - 1]; }
      }
      if k :| 0 <= k < |pools[1..]| && c in pools[1..][k] { assert c in pools[k + 1]; }
    }
  }

  function Sample(c: CharClass): char {
    match c case LowerCase => 'a' case UpperCase => 'A' case Digit => '2' case Symbol => '!'
  }

  lemma SampleInClass(c: CharClass)
    ensures Sample(c) in CharsOf(c)
  {
    match c {
      case LowerCase => assert LOWER[0] == 'a';
      case UpperCase => assert UPPER[0] == 'A';
      case Digit => assert DIGITS[2] == '2';
      case Symbol => assert SYMBOLS[0] == '!';
    }
  }

  lemma SampleNotAmbiguous(c: CharClass)
    ensures NotAmbiguous()(Sample(c))
  {
  }

  /** Every class keeps a character without the ambiguous glyphs. */
  lemma PoolOfNonEmpty(c: CharClass, excludeAmbiguous: bool)
    ensures PoolOf(c, excludeAmbiguous) != ""
  {
    SampleInClass(c);
    SampleNotAmbiguous(c);
    FilterMember(CharsOf(c), NotAmbiguous(), Sample(c));
  }

  lemma PoolsNonEmpty(o: Options)
    ensures forall k :: 0 <= k < |Pools(o)| ==> Pools(o)[k] != ""
  {
    forall k | 0 <= k < |Pools(o)| ensures Pools(o)[k] != "" {
      PoolOfNonEmpty(Selected(o)[k], o.excludeAmbiguous);
    }
  }

  predicate InRange(c: CharClass, x: char) {
    match c
    case LowerCase => 'a' <= x <= 'z'
    case UpperCase => 'A' <= x <= 'Z'
    case Digit => '0' <= x <= '9'
    case Symbol => !('a' <= x <= 'z') && !('A' <= x <= 'Z') && !('0' <= x <= '9')
  }

  lemma LowerRange(x: char)
    ensures x in LOWER ==> InRange(LowerCase, x)
  {
  }

  lemma UpperRange(x: char)
    ensures x in UPPER ==> InRange(UpperCase, x)
  {
  }

  lemma DigitRange(x: char)
    ensures x in DIGITS ==> InRange(Digit, x)
  {
  }

  lemma SymbolRange(x: char)
    ensures x in SYMBOLS ==> InRange(Symbol, x)
  {
  }

  lemma ClassRange(c: CharClass, x: char)
    requires x in CharsOf(c)
    ensures InRange(c, x)
  {
    match c {
      case LowerCase => LowerRange(x);
      case UpperCase => UpperRange(x);
      case Digit => DigitRange(x);
      case Symbol => SymbolRange(x);
    }
  }

  lemma AmbiguousRange(x: char)
    ensures x in AMBIGUOUS ==> !InRange(Symbol, x)
  {
  }

  lemma PoolOfRange(c: CharClass, excludeAmbiguous: bool, x: char)
    requires x in PoolOf(c, excludeAmbiguous)
    ensures InRange(c, x)
    ensures excludeAmbiguous ==> x !in AMBIGUOUS
  {
    FilterMember(CharsOf(c), NotAmbiguous(), x);
    ClassRange(c, x);
    if c == Symbol { AmbiguousRange(x); }
  }

  lemma PoolsDisjoint(o: Options, j: nat, k: nat, c: char)
    requires j < k < |Pools(o)| && c in Pools(o)[j]
    ensures c !in Pools(o)[k]
  {
    var a, b := Selected(o)[j], Selected(o)[k];
    PoolOfRange(a, o.excludeAmbiguous, c);
    if c in Pools(o)[k] { PoolOfRange(b, o.excludeAmbiguous, c); }
  }

  // ---- what is in a password ------------------------------------------------------------------

  /** The option that turns a class on. */
  predicate Chosen(o: Options, c: CharClass) {
    match c
    case LowerCase => o.lower
    case UpperCase => o.upper
    case Digit => o.digits
    case Symbol => o.symbols
  }

  /** The character is of the class, and not one of those left out. */
  predicate Fits(o: Options, c: CharClass, x: char) {
    && (match c
        case LowerCase => 'a' <= x <= 'z'
        case UpperCase => 'A' <= x <= 'Z'
        case Digit => '0' <= x <= '9'
        case Symbol => x in "!@#$%^&*()-_=+[]{};:,.?/")
    && (o.excludeAmbiguous ==> x !in "il1IoO0")
  }

  lemma SelectedMeans(o: Options, c: CharClass)
    ensures c in Selected(o) <==> Chosen(o, c)
  {
    var a, b := if o.lower then [LowerCase] else [], if o.upper then [UpperCase] else [];
    var d, e := if o.digits then [Digit] else [], if o.symbols then [Symbol] else [];
    assert c in a + b + d + e <==> c in a || c in b || c in d || c in e;
  }

  lemma LettersAreAll(x: char)
    ensures 'a' <= x <= 'z' ==> x in LOWER
    ensures 'A' <= x <= 'Z' ==> x in UPPER
    ensures '0' <= x <= '9' ==> x in DIGITS
  {
    if 'a' <= x <= 'z' { assert LOWER[x as int - 97] == x; }
    if 'A' <= x <= 'Z' { assert UPPER[x as int - 65] == x; }
    if '0' <= x <= '9' { assert DIGITS[x as int - 48] == x; }
  }

  lemma PoolMeans(o: Options, c: CharClass, x: char)
    ensures x in PoolOf(c, o.excludeAmbiguous) <==> Fits(o, c, x)
  {
    LettersAreAll(x);
    if x in CharsOf(c) { ClassRange(c, x); }
    AmbiguousRange(x);
    FilterMember(CharsOf(c), NotAmbiguous(), x);
    if c == Symbol && x in SYMBOLS { SymbolRange(x); }
  }

  /** Some character is of the class. */
  predicate Has(o: Options, c: CharClass, s: string) { exists i :: 0 <= i < |s| && Fits(o, c, s[i]) }

  predicate OfSome(o: Options, x: char) { exists c :: Chosen(o, c) && Fits(o, c, x) }

  /** The asked length, only characters of chosen classes, and a character of a class if and only if it was chosen. */
  ghost predicate KeepsPromise(o: Options, s: string) {
    && |s| == o.length && (forall i :: 0 <= i < |s| ==> OfSome(o, s[i]))
    && (forall c :: Has(o, c, s) <==> Chosen(o, c))
  }

  lemma AllowedMeans(o: Options, x: char)
    ensures x in Concat(Pools(o)) <==> OfSome(o, x)
  {
    InConcat(Pools(o), x);
    if k :| 0 <= k < |Pools(o)| && x in Pools(o)[k] {
      SelectedMeans(o, Selected(o)[k]);
      PoolMeans(o, Selected(o)[k], x);
    }
    if c :| Chosen(o, c) && Fits(o, c, x) {
      SelectedMeans(o, c);
      var k :| 0 <= k < |Selected(o)| && Selected(o)[k] == c;
      PoolMeans(o, c, x);
      assert x in Pools(o)[k];
    }
  }

  // ---- the password of a stream of draws ------------------------------------------------------

  predicate ValidOptions(o: Options) {
    MIN_LENGTH <= o.length <= MAX_LENGTH && (o.lower || o.upper || o.digits || o.symbols)
  }

  /** How many numbers a password takes: one per character, one per shuffle step. */
  function Needed(o: Options): int {
    2 * o.length - 1
  }

  /** Before the shuffle: one character of each pool, then characters of the joint pool. */
  function Placed(pools: seq<string>, draws: seq<nat>, n: nat): (s: string)
    requires forall k :: 0 <= k < |pools| ==> pools[k] != ""
    requires Concat(pools) != "" && n <= |draws|
    ensures |s| == n
  {
    seq(n, k requires 0 <= k < n =>
      var pool := if k < |pools| then pools[k] else Concat(pools);
      pool[draws[k] % |pool|])
  }

  /** The draws of a pass over `n` values, reduced to their ranges. */
  function DrawsOf(draws: seq<nat>, n: nat): (js: seq<nat>)
    requires n > 0 && |draws| >= n - 1
    ensures Choices(js, n - 1)
  {
    seq(n - 1, k requires 0 <= k < n - 1 => draws[k] % (n - k))
  }

  lemma PoolNonEmpty(o: Options)
    ensures (o.lower || o.upper || o.digits || o.symbols) <==> Concat(Pools(o)) != ""
  {
    PoolsNonEmpty(o);
    if Selected(o) != [] { assert Pools(o)[0] != ""; }
  }

  function Password(o: Options, draws: seq<nat>): (s: string)
    requires ValidOptions(o) && |draws| >= Needed(o)
    ensures |s| == o.length
  {
    PoolsNonEmpty(o);
    PoolNonEmpty(o);
    Shuffled(Placed(Pools(o), draws, o.length), DrawsOf(draws[o.length..], o.length))
  }

  // ---- internal/password/password.go ----------------------------------------------------------

  method PickRune(chars: string, source: RandomSource) returns (r: Result<char>)
    requires chars != ""
    modifies source
    ensures old(source.draws) == [] ==> r == Failure(RandomFailed) && source.draws == []
    ensures old(source.draws) != [] ==>
              r == Success(chars[old(source.draws)[0] % |chars|]) && source.draws == old(source.draws)[1..]
  {
    var n := source.Int(|chars|);
    if n.Failure? { return Failure(n.error); }
    return Success(chars[n.value]);
  }

  /** The in-place pass: swap position i with a drawn position at or below it, for i from the end to 1. */
  method ShuffleInPlace(values: array<char>, source: RandomSource) returns (ok: bool)
    requires values.Length > 0
    modifies values, source
    ensures ok <==> |old(source.draws)| >= values.Length - 1
    ensures ok ==> source.draws == old(source.draws)[values.Length - 1..]
    ensures ok ==> values[..] == Shuffled(old(values[..]), DrawsOf(old(source.draws), values.Length))
  {
    var i := values.Length - 1;
    ghost var n, start, draws := values.Length, values[..], source.draws;
    ghost var taken := 0;
    while i > 0
      invariant 0 <= i < n && taken == n - 1 - i && taken <= |draws|
      invariant source.draws == draws[taken..]
      invariant |draws| >= n - 1 ==>
                  Shuffled(start, DrawsOf(draws, n)) == ShuffledFrom(values[..], i, DrawsOf(draws, n)[taken..])
    {
      var j := source.Int(i + 1);
      if j.Failure? { return false; }
      ghost var before := values[..];
      values[i], values[j.value] := values[j.value], values[i];
      assert values[..] == Swap(before, i, j.value);
      if |draws| >= n - 1 {
        ghost var js := DrawsOf(draws, n)[taken..];
        assert js[0] == draws[taken] % (i + 1) == j.value;
        assert js[1..] == DrawsOf(draws, n)[taken + 1..];
      }
      i := i - 1;
      taken := taken + 1;
    }
    return true;
  }

  method Generate(o: Options, source: RandomSource) returns (r: Result<string>)
    modifies source
    ensures r.Failure? ==>
              r.error == if o.length < 4 then TooShort else if o.length > 256 then TooLong
                         else if !(o.lower || o.upper || o.digits || o.symbols) then NoClass else RandomFailed
    ensures r.Success? <==>
              && 4 <= o.length <= 256 && (o.lower || o.upper || o.digits || o.symbols)
              && |old(source.draws)| >= 2 * o.length - 1
    ensures r.Success? ==> r.value == Password(o, old(source.draws)) && source.draws == old(source.draws)[Needed(o)..]
    ensures r.Success? ==> KeepsPromise(o, r.value)
  {
    if o.length < MIN_LENGTH { return Failure(TooShort); }
    if o.length > MAX_LENGTH { return Failure(TooLong); }
    var pools := CollectPools(o);
    var pool := Concat(pools);
    PoolNonEmpty(o);
    if pool == "" { return Failure(NoClass); }
    PoolsNonEmpty(o);
    var out := Place(pools, pool, o.length, source);
    if out.Failure? { return Failure(out.error); }
    var values := new char[o.length](i requires 0 <= i < o.length => out.value[i]);
    assert values[..] == out.value;
    ghost var draws := old(source.draws);
    var ok := ShuffleInPlace(values, source);
    if !ok { return Failure(RandomFailed); }
    PasswordsKeepPromise(o, draws);
    return Success(values[..]);
  }

  /** The two loops of Generate: one character per pool, then characters of the joint pool. */
  method Place(pools: seq<string>, pool: string, length: nat, source: RandomSource) returns (r: Result<string>)
    requires |pools| <= length && pool == Concat(pools) != ""
    requires forall k :: 0 <= k < |pools| ==> pools[k] != ""
    modifies source
    ensures r.Success? <==> |old(source.draws)| >= length
    ensures r.Failure? ==> r == Failure(RandomFailed)
    ensures r.Success? ==> r.value == Placed(pools, old(source.draws), length)
    ensures r.Success? ==> source.draws == old(source.draws)[length..]
  {
    ghost var draws := source.draws;
    var out := "";
    for k := 0 to |pools|
      invariant |out| == k <= |draws|
      invariant source.draws == draws[k..]
      invariant out == Placed(pools, draws, k)
    {
      var c := PickRune(pools[k], source);
      if c.Failure? { return Failure(c.error); }
      out := out + [c.value];
      assert out == Placed(pools, draws, k + 1);
    }
    while |out| < length
      invariant |pools| <= |out| <= length && |out| <= |draws|
      invariant source.draws == draws[|out|..]
      invariant out == Placed(pools, draws, |out|)
    {
      var c := PickRune(pool, source);
      if c.Failure? { return Failure(c.error); }
      out := out + [c.value];
      assert out == Placed(pools, draws, |out|);
    }
    return Success(out);
  }

  /** `pools = append(pools, ...)` for one class. */
  method AddPool(pools: seq<string>, ghost classes: seq<CharClass>, c: CharClass, excludeAmbiguous: bool)
    returns (r: seq<string>)
    requires pools == PoolsOf(classes, excludeAmbiguous)
    ensures r == PoolsOf(classes + [c], excludeAmbiguous)
  {
    var chars := Class(CharsOf(c), excludeAmbiguous && c != Symbol);
    r := pools + [chars];
  }

  method CollectPools(o: Options) returns (pools: seq<string>)
    ensures pools == Pools(o)
  {
    pools := [];
    ghost var classes: seq<CharClass> := [];
    if o.lower {
      pools := AddPool(pools, classes, LowerCase, o.excludeAmbiguous);
      classes := classes + [LowerCase];
    }
    if o.upper {
      pools := AddPool(pools, classes, UpperCase, o.excludeAmbiguous);
      classes := classes + [UpperCase];
    }
    if o.digits {
      pools := AddPool(pools, classes, Digit, o.excludeAmbiguous);
      classes := classes + [Digit];
    }
    if o.symbols {
      pools := AddPool(pools, classes, Symbol, o.excludeAmbiguous);
      classes := classes + [Symbol];
    }
    assert classes == Selected(o);
  }

  // ---- which passwords come out ---------------------------------------------------------------

  /** Characters of the pools only, at least one of each. */
  ghost predicate Covers(pools: seq<string>, s: string) {
    && (forall i :: 0 <= i < |s| ==> s[i] in Concat(pools))
    && Hits(pools, s)
  }

  ghost predicate Hit(pool: string, s: string) {
    exists i :: 0 <= i < |s| && s[i] in pool
  }

  ghost predicate Hits(pools: seq<string>, s: string) {
    forall k :: 0 <= k < |pools| ==> Hit(pools[k], s)
  }

  /** The promise: the right length, selected characters only, at least one of every selected class. */
  ghost predicate Policy(o: Options, s: string) {
    |s| == o.length && Covers(Pools(o), s)
  }

  /**
   The promise in terms of the options: the asked length, every character of a chosen class, and of every chosen class
   one. So a class occurs if and only if it was chosen.
   */
  lemma PolicyMeans(o: Options, s: string)
    ensures Policy(o, s) <==> KeepsPromise(o, s)
  {
    forall i | 0 <= i < |s| ensures s[i] in Concat(Pools(o)) <==> OfSome(o, s[i]) {
      AllowedMeans(o, s[i]);
    }
    HitsMean(o, s);
    if Policy(o, s) {
      forall c | Has(o, c, s) ensures Chosen(o, c) {
        var i :| 0 <= i < |s| && Fits(o, c, s[i]);
        assert OfSome(o, s[i]);
        OnlyChosen(o, c, s[i]);
      }
    }
  }

  lemma PasswordsKeepPromise(o: Options, draws: seq<nat>)
    requires ValidOptions(o) && |draws| >= Needed(o)
    ensures KeepsPromise(o, Password(o, draws))
  {
    PasswordsKeepPolicy(o, draws);
    PolicyMeans(o, Password(o, draws));
  }

  lemma OnlyChosen(o: Options, c: CharClass, x: char)
    requires OfSome(o, x) && Fits(o, c, x)
    ensures Chosen(o, c)
  {
    var d :| Chosen(o, d) && Fits(o, d, x);
    OneClass(o, c, d, x);
  }

  lemma HitsMean(o: Options, s: string)
    ensures Hits(Pools(o), s) <==> forall c :: Chosen(o, c) ==> Has(o, c, s)
  {
    if Hits(Pools(o), s) {
      forall c | Chosen(o, c) ensures Has(o, c, s) {
        SelectedMeans(o, c);
        var k :| 0 <= k < |Selected(o)| && Selected(o)[k] == c;
        assert Hit(Pools(o)[k], s);
        HitMeans(o, k, s);
      }
    }
    if forall c :: Chosen(o, c) ==> Has(o, c, s) {
      forall k | 0 <= k < |Pools(o)| ensures Hit(Pools(o)[k], s) {
        SelectedMeans(o, Selected(o)[k]);
        HitMeans(o, k, s);
      }
    }
  }

  lemma HitMeans(o: Options, k: nat, s: string)
    requires k < |Pools(o)|
    ensures Hit(Pools(o)[k], s) <==> Has(o, Selected(o)[k], s)
  {
    forall i | 0 <= i < |s| ensures s[i] in Pools(o)[k] <==> Fits(o, Selected(o)[k], s[i]) {
      PoolMeans(o, Selected(o)[k], s[i]);
    }
  }

  lemma OneClass(o: Options, c: CharClass, d: CharClass, x: char)
    requires Fits(o, c, x) && Fits(o, d, x)
    ensures c == d
  {
    SymbolRange(x);
  }

  lemma SameMultisetCovers(pools: seq<string>, a: string, b: string)
    requires multiset(a) == multiset(b) && Covers(pools, a)
    ensures |a| == |b| && Covers(pools, b)
  {
    assert |multiset(a)| == |a| && |multiset(b)| == |b|;
    forall i | 0 <= i < |b| ensures b[i] in Concat(pools) {
      assert b[i] in multiset(b);
      assert b[i] in a;
    }
    forall k | 0 <= k < |pools| ensures Hit(pools[k], b) {
      assert Hit(pools[k], a);
      var i :| 0 <= i < |a| && a[i] in pools[k];
      assert a[i] in multiset(a);
      assert a[i] in b;
    }
  }

  lemma PlacedCovers(pools: seq<string>, draws: seq<nat>, n: nat)
    requires forall k :: 0 <= k < |pools| ==> pools[k] != ""
    requires Concat(pools) != "" && |pools| <= n <= |draws|
    ensures Covers(pools, Placed(pools, draws, n))
  {
    var s := Placed(pools, draws, n);
    forall i | 0 <= i < |s| ensures s[i] in Concat(pools) {
      InConcat(pools, s[i]);
    }
    forall k | 0 <= k < |pools| ensures Hit(pools[k], s) {
      assert s[k] in pools[k];
    }
  }

  lemma ShuffledCovers(pools: seq<string>, draws: seq<nat>, n: nat)
    requires forall k :: 0 <= k < |pools| ==> pools[k] != ""
    requires Concat(pools) != "" && |pools| <= n && 0 < n && |draws| >= 2 * n - 1
    ensures Covers(pools, Shuffled(Placed(pools, draws, n), DrawsOf(draws[n..], n)))
  {
    var s, js := Placed(pools, draws, n), DrawsOf(draws[n..], n);
    PlacedCovers(pools, draws, n);
    ShuffledMultiset(s, js);
    SameMultisetCovers(pools, s, Shuffled(s, js));
  }

  /** Every generated password keeps the promise: coverage survives the shuffle. */
  lemma PasswordsKeepPolicy(o: Options, draws: seq<nat>)
    requires ValidOptions(o) && |draws| >= Needed(o)
    ensures Policy(o, Password(o, draws))
  {
    PoolsNonEmpty(o);
    PoolNonEmpty(o);
    ShuffledCovers(Pools(o), draws, o.length);
  }

  lemma NoAmbiguousGlyphs(o: Options, s: string, i: nat)
    requires o.excludeAmbiguous && Policy(o, s) && i < |s|
    ensures s[i] !in AMBIGUOUS
  {
    InConcat(Pools(o), s[i]);
    var k :| 0 <= k < |Pools(o)| && s[i] in Pools(o)[k];
    PoolOfRange(Selected(o)[k], true, s[i]);
  }

  ghost predicate Disjoint(pools: seq<string>) {
    forall j, k, c :: 0 <= j < k < |pools| && c in pools[j] ==> c !in pools[k]
  }

  lemma RestHits(pools: seq<string>, s: string, i: nat)
    requires pools != [] && Disjoint(pools) && Hits(pools, s) && i < |s| && s[i] in pools[0]
    ensures Disjoint(pools[1..]) && Hits(pools[1..], Without(s, i))
  {
    forall k | 0 <= k < |pools[1..]| ensures Hit(pools[1..][k], Without(s, i)) {
      assert pools[1..][k] == pools[k + 1];
      assert Hit(pools[k + 1], s);
      var b :| 0 <= b < |s| && s[b] in pools[k + 1];
      assert b != i;
      var a := if b < i then b else b - 1;
      assert Without(s, i)[a] in pools[1..][k];
    }
  }

  /** Characters of distinct classes can be brought to the front, one per class, in class order. */
  lemma {:induction false} BringToFront(pools: seq<string>, s: string) returns (t: string)
    requires Disjoint(pools) && Hits(pools, s)
    ensures multiset(t) == multiset(s) && |pools| <= |t| == |s|
    ensures forall k :: 0 <= k < |pools| ==> t[k] in pools[k]
  {
    if pools == [] {
      t := s;
    } else {
      assert Hit(pools[0], s);
      var i :| 0 <= i < |s| && s[i] in pools[0];
      RestHits(pools, s, i);
      var u := BringToFront(pools[1..], Without(s, i));
      t := [s[i]] + u;
      WithoutMultiset(s, i);
      forall k | 0 <= k < |pools| ensures t[k] in pools[k] {
        if k > 0 { assert t[k] == u[k - 1] && pools[1..][k - 1] == pools[k]; }
      }
    }
  }

  lemma DrawFor(pool: string, c: char) returns (d: nat)
    requires c in pool
    ensures pool != "" && pool[d % |pool|] == c
  {
    d :| d < |pool| && pool[d] == c;
    assert d % |pool| == d;
  }

  lemma {:induction false} DrawsFor(pools: seq<string>, t: string, n: nat) returns (draws: seq<nat>)
    requires forall k :: 0 <= k < |pools| ==> pools[k] != ""
    requires Concat(pools) != "" && n <= |t|
    requires forall k :: 0 <= k < |t| ==> t[k] in (if k < |pools| then pools[k] else Concat(pools))
    ensures |draws| == n && Placed(pools, draws, n) == t[..n]
    decreases n
  {
    if n == 0 {
      draws := [];
    } else {
      var before := DrawsFor(pools, t, n - 1);
      var d := DrawFor(if n - 1 < |pools| then pools[n - 1] else Concat(pools), t[n - 1]);
      draws := before + [d];
      forall k | 0 <= k < n ensures Placed(pools, draws, n)[k] == t[k] {
        if k < n - 1 { assert Placed(pools, before, n - 1)[k] == t[..n - 1][k]; }
      }
    }
  }

  /** The generator reaches exactly the passwords that keep the promise. */
  lemma GeneratorIsExact(o: Options, s: string)
    requires ValidOptions(o)
    ensures Policy(o, s) <==> exists draws :: |draws| == Needed(o) && Password(o, draws) == s
  {
    forall draws | |draws| == Needed(o) && Password(o, draws) == s ensures Policy(o, s) {
      PasswordsKeepPolicy(o, draws);
    }
    if Policy(o, s) { var draws := SomeDraws(o, s); }
  }

  lemma SomeDraws(o: Options, s: string) returns (draws: seq<nat>)
    requires ValidOptions(o) && Policy(o, s)
    ensures |draws| == Needed(o) && Password(o, draws) == s
  {
    PoolsNonEmpty(o);
    PoolNonEmpty(o);
    forall j, k, c | 0 <= j < k < |Pools(o)| && c in Pools(o)[j] ensures c !in Pools(o)[k] {
      PoolsDisjoint(o, j, k, c);
    }
    draws := DrawsReaching(Pools(o), s);
  }

  lemma DrawsReaching(pools: seq<string>, s: string) returns (draws: seq<nat>)
    requires forall k :: 0 <= k < |pools| ==> pools[k] != ""
    requires Disjoint(pools) && Concat(pools) != "" && s != "" && Covers(pools, s)
    ensures |draws| == 2 * |s| - 1
    ensures Shuffled(Placed(pools, draws, |s|), DrawsOf(draws[|s|..], |s|)) == s
  {
    var n := |s|;
    var t := BringToFront(pools, s);
    SameMultisetCovers(pools, s, t);
    var placed := DrawsFor(pools, t, n);
    var js := ShuffleTo(t, s);
    draws := placed + js;
    assert Placed(pools, draws, n) == Placed(pools, placed, n);
    assert draws[n..] == js;
    assert t[..n] == t;
  }

  lemma ShuffleTo(t: string, s: string) returns (js: seq<nat>)
    requires multiset(t) == multiset(s) && |s| == |t| > 0
    ensures |js| == |s| - 1 && Shuffled(t, DrawsOf(js, |s|)) == s
  {
    assert t[..|t|] == t && s[..|s|] == s;
    js := ShuffledFromOnto(t, |s| - 1, s);
    ReducedChoices(js, |s|);
  }

  /** Draws already in range are not changed by the reduction. */
  lemma ReducedChoices(js: seq<nat>, n: nat)
    requires n > 0 && Choices(js, n - 1)
    ensures DrawsOf(js, n) == js
  {
    forall k | 0 <= k < n - 1 ensures DrawsOf(js, n)[k] == js[k] {
      SmallMod(js[k], n - k);
    }
  }

  lemma SmallMod(a: nat, m: nat)
    requires a < m
    ensures a % m == a
  {
  }
}
